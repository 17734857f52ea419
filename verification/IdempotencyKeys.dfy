/**
 Which requests share a stored key (check_key and storage_key in app/core/idempotency.py).
 SHA-256 is a parameter: any function that never gives two texts one digest.
 */
module IdempotencyKeys {

  const NEWLINE := '\n'
  const KEY_PREFIX := "idem:v1:"
  const GUARDED_METHODS := {"POST", "PATCH"}

  predicate KeyCharacter(c: char) {
    'A' <= c <= 'Z' || 'a' <= c <= 'z' || '0' <= c <= '9' || c in {'.', '_', ':', '-'}
  }

  /** KEY_PATTERN.fullmatch. */
  predicate UsableKey(key: string) {
    8 <= |key| <= 128 && forall i :: 0 <= i < |key| ==> KeyCharacter(key[i])
  }

  /** The same check by the characters a key may hold. */
  lemma KeyByItsCharacters(key: string)
    ensures UsableKey(key) <==>
            8 <= |key| <= 128 && forall c :: c in key ==> c in "._:-" || '0' <= c <= '9' || 'A' <= c <= 'Z' || 'a' <= c <= 'z'
  {
    if forall c :: c in key ==> c in "._:-" || '0' <= c <= '9' || 'A' <= c <= 'Z' || 'a' <= c <= 'z' {
      assert forall i :: 0 <= i < |key| ==> key[i] in key;
    } else {
      var c :| c in key && !(c in "._:-" || '0' <= c <= '9' || 'A' <= c <= 'Z' || 'a' <= c <= 'z');
      var i :| 0 <= i < |key| && key[i] == c;
      assert !KeyCharacter(key[i]);
    }
  }

  /** str.upper on an HTTP method, which is ASCII. */
  function Upper(method_: string): string {
    seq(|method_|, i requires 0 <= i < |method_| =>
      if 'a' <= method_[i] <= 'z' then method_[i] - 'a' + 'A' else method_[i])
  }

  datatype Scope = Scope(credential: string, method_: string, path: string, key: string)

  /** "\n".join([credential, method.upper(), path, key]). */
  function ScopeText(scope: Scope): string {
    scope.credential + [NEWLINE] + (Upper(scope.method_) + [NEWLINE] + (scope.path + [NEWLINE] + scope.key))
  }

  function StorageKey(hash: string -> string, scope: Scope): string {
    KEY_PREFIX + hash(ScopeText(scope))
  }

  ghost predicate CollisionFree(hash: string -> string) {
    forall a, b :: hash(a) == hash(b) ==> a == b
  }

  /** Two texts cut at their first newline agree on both sides of it. */
  lemma FirstCut(a: string, restA: string, b: string, restB: string)
    requires NEWLINE !in a && NEWLINE !in b
    requires a + [NEWLINE] + restA == b + [NEWLINE] + restB
    ensures a == b && restA == restB
  {
    var whole := a + [NEWLINE] + restA;
    assert whole[|a|] == NEWLINE && whole[|b|] == NEWLINE;
    assert forall i :: 0 <= i < |a| ==> whole[i] == a[i];
    assert forall i :: 0 <= i < |b| ==> whole[i] == b[i];
    assert |a| == |b|;
    assert a == whole[..|a|] == b;
    assert restA == whole[|a| + 1..] == restB;
  }

  /** Two texts cut at their last newline agree on both sides of it. */
  lemma LastCut(restA: string, a: string, restB: string, b: string)
    requires NEWLINE !in a && NEWLINE !in b
    requires restA + [NEWLINE] + a == restB + [NEWLINE] + b
    ensures a == b && restA == restB
  {
    var whole := restA + [NEWLINE] + a;
    assert whole[|restA|] == NEWLINE && whole[|restB|] == NEWLINE;
    assert forall i :: |restA| < i < |whole| ==> whole[i] == a[i - |restA| - 1];
    assert forall i :: |restB| < i < |whole| ==> whole[i] == b[i - |restB| - 1];
    assert |restA| == |restB|;
    assert restA == whole[..|restA|] == restB;
    assert a == whole[|restA| + 1..] == b;
  }

  /** A usable key never holds a newline: that part of the join is the code's own doing. */
  lemma UsableKeysHoldNoNewline(key: string)
    requires UsableKey(key)
    ensures NEWLINE !in key
  {
    forall i | 0 <= i < |key| ensures key[i] != NEWLINE {
      assert KeyCharacter(key[i]);
    }
  }

  /** The parts that must hold no newline besides the key. The path may hold any. */
  predicate Plain(scope: Scope) {
    NEWLINE !in scope.credential && NEWLINE !in Upper(scope.method_)
  }

  /** Two requests whose keys passed the check share a stored key exactly when caller, method,
      path and key are the same: two people using one key never meet. */
  lemma StoredKeysMeetOnlyForTheSameScope(hash: string -> string, a: Scope, b: Scope)
    requires CollisionFree(hash) && Plain(a) && Plain(b) && UsableKey(a.key) && UsableKey(b.key)
    ensures StorageKey(hash, a) == StorageKey(hash, b) <==>
            a.credential == b.credential && Upper(a.method_) == Upper(b.method_) && a.path == b.path && a.key == b.key
  {
    UsableKeysHoldNoNewline(a.key);
    UsableKeysHoldNoNewline(b.key);
    if StorageKey(hash, a) == StorageKey(hash, b) {
      assert hash(ScopeText(a)) == StorageKey(hash, a)[|KEY_PREFIX|..];
      assert hash(ScopeText(b)) == StorageKey(hash, b)[|KEY_PREFIX|..];
      var tailA := a.path + [NEWLINE] + a.key;
      var tailB := b.path + [NEWLINE] + b.key;
      FirstCut(a.credential, Upper(a.method_) + [NEWLINE] + tailA, b.credential, Upper(b.method_) + [NEWLINE] + tailB);
      FirstCut(Upper(a.method_), tailA, Upper(b.method_), tailB);
      LastCut(a.path, a.key, b.path, b.key);
    }
  }

  /** And nothing of the caller is in it but a digest. */
  lemma StoredKeyHoldsADigest(hash: string -> string, scope: Scope)
    ensures exists text :: StorageKey(hash, scope) == "idem:v1:" + hash(text)
  {
    assert StorageKey(hash, scope) == "idem:v1:" + hash(ScopeText(scope));
  }

  /** Why the credential must hold none: with a newline in it two callers would meet. None of the
      three it can be (an account's id, a header's value, a client's address) ever holds one. */
  lemma NewlineInACredentialCollides(hash: string -> string, key: string)
    ensures var a := Scope("a\nPOST", "PATCH", "/p", key);
            var b := Scope("a", "POST", "PATCH\n/p", key);
            a != b && StorageKey(hash, a) == StorageKey(hash, b)
  {
    var a := Scope("a\nPOST", "PATCH", "/p", key);
    var b := Scope("a", "POST", "PATCH\n/p", key);
    assert Upper("PATCH") == "PATCH" && Upper("POST") == "POST";
    assert ScopeText(a) == "a\nPOST\nPATCH\n/p\n" + key;
    assert ScopeText(b) == "a\nPOST\nPATCH\n/p\n" + key;
  }
}
