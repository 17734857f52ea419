/**
 The order of what is waiting on someone (app/core/attention.py): `sorted` with a key, which
 keeps items of equal keys in the order they came.
 */
module AttentionOrder {
  import opened Wrappers

  datatype Kind =
    | NewSignIn | DeletionPending | PhoneChangePending | UpiChangePending | RespondToDispute | PayCreator
    | ConfirmPayment | PaymentOverdue | ReviewProof | ReviewDraft | ResubmitWork | ReviseDraft | DeliverWork
    | ShowDraft | AnswerMemo | AnswerInvitation | ReviseMemo | DraftMemo | ReviewApplications
    | FixDomainRecord | DomainLapsed | DomainClaimExpired

  /** _PRIORITY. */
  function Priority(kind: Kind): nat {
    match kind
    case NewSignIn => 0
    case DeletionPending => 1
    case PhoneChangePending => 2
    case UpiChangePending => 3
    case RespondToDispute => 4
    case PayCreator => 5
    case ConfirmPayment => 6
    case PaymentOverdue => 7
    case ReviewProof => 8
    case ReviewDraft => 9
    case ResubmitWork => 10
    case ReviseDraft => 11
    case DeliverWork => 12
    case ShowDraft => 13
    case AnswerMemo => 14
    case AnswerInvitation => 15
    case ReviseMemo => 16
    case DraftMemo => 17
    case ReviewApplications => 18
    case FixDomainRecord => 19
    case DomainLapsed => 20
    case DomainClaimExpired => 21
  }

  /** Ids are as they are written; `facts` is everything else an item carries. */
  datatype Item = Item(
    kind: Kind, dueOn: Option<int>, campaign: Option<string>, application: Option<string>, memo: Option<string>,
    proof: Option<string>, draft: Option<string>, domain: Option<string>, session: Option<string>, facts: string)

  /** Later than any date an item is due. */
  const NO_DATE := 3652059

  datatype Key = Key(late: bool, undated: bool, due: int, rank: nat, tie: string)

  /** `a or b` on optional text: empty text counts as none. */
  function Or(a: Option<string>, b: Option<string>): Option<string> {
    if a.Some? && a.value != "" then a else b
  }

  function Tie(item: Item): string {
    var tie := Or(item.proof, Or(item.draft, Or(item.memo, Or(item.application,
               Or(item.campaign, Or(item.domain, item.session))))));
    if tie.Some? then tie.value else "None"
  }

  function KeyOf(item: Item): Key {
    Key(item.kind != NewSignIn, item.dueOn.None?, if item.dueOn.Some? then item.dueOn.value else NO_DATE,
        Priority(item.kind), Tie(item))
  }

  predicate TextLeq(a: string, b: string) {
    a == "" || (b != "" && (a[0] < b[0] || (a[0] == b[0] && TextLeq(a[1..], b[1..]))))
  }

  /** Tuples compare field by field; False comes before True. */
  predicate Leq(a: Key, b: Key) {
    if a.late != b.late then b.late
    else if a.undated != b.undated then b.undated
    else if a.due != b.due then a.due < b.due
    else if a.rank != b.rank then a.rank < b.rank
    else TextLeq(a.tie, b.tie)
  }

  predicate Before(x: Item, y: Item) {
    Leq(KeyOf(x), KeyOf(y))
  }

  function Insert(item: Item, sorted: seq<Item>): seq<Item> {
    if sorted == [] || Before(item, sorted[0]) then [item] + sorted
    else [sorted[0]] + Insert(item, sorted[1..])
  }

  /** `sorted(items, key=key)`: the one stable ordering by key. */
  function ByUrgency(items: seq<Item>): seq<Item> {
    if items == [] then [] else Insert(items[0], ByUrgency(items[1..]))
  }

  // ---- the order is total --------------------------------------------------------------------------

  lemma {:induction false} TextTotal(a: string, b: string)
    ensures TextLeq(a, b) || TextLeq(b, a)
    ensures TextLeq(a, b) && TextLeq(b, a) ==> a == b
  {
    if a != "" && b != "" {
      TextTotal(a[1..], b[1..]);
      assert a == [a[0]] + a[1..] && b == [b[0]] + b[1..];
    }
  }

  lemma {:induction false} TextTransitive(a: string, b: string, c: string)
    requires TextLeq(a, b) && TextLeq(b, c)
    ensures TextLeq(a, c)
  {
    if a != "" && a[0] == b[0] == c[0] {
      TextTransitive(a[1..], b[1..], c[1..]);
    }
  }

  lemma BeforeTotal(x: Item, y: Item)
    ensures Before(x, y) || Before(y, x)
    ensures Before(x, y) && Before(y, x) ==> KeyOf(x) == KeyOf(y)
  {
    TextTotal(KeyOf(x).tie, KeyOf(y).tie);
  }

  lemma BeforeTransitive(x: Item, y: Item, z: Item)
    requires Before(x, y) && Before(y, z)
    ensures Before(x, z)
  {
    if TextLeq(KeyOf(x).tie, KeyOf(y).tie) && TextLeq(KeyOf(y).tie, KeyOf(z).tie) {
      TextTransitive(KeyOf(x).tie, KeyOf(y).tie, KeyOf(z).tie);
    }
  }

  // ---- what sorting gives --------------------------------------------------------------------------

  ghost predicate InOrder(items: seq<Item>) {
    forall i, j :: 0 <= i < j < |items| ==> Before(items[i], items[j])
  }

  lemma {:induction false} InsertIsOrdered(item: Item, sorted: seq<Item>)
    requires InOrder(sorted)
    ensures InOrder(Insert(item, sorted))
    ensures multiset(Insert(item, sorted)) == multiset{item} + multiset(sorted)
  {
    if sorted == [] {
    } else if Before(item, sorted[0]) {
      forall j | 0 <= j < |sorted| ensures Before(item, sorted[j]) {
        if j > 0 {
          BeforeTransitive(item, sorted[0], sorted[j]);
        }
      }
    } else {
      var rest := Insert(item, sorted[1..]);
      InsertIsOrdered(item, sorted[1..]);
      BeforeTotal(item, sorted[0]);
      assert sorted == [sorted[0]] + sorted[1..];
      forall j | 0 <= j < |rest| ensures Before(sorted[0], rest[j]) {
        assert rest[j] in multiset(rest);
        if rest[j] != item {
          var k :| 0 <= k < |sorted[1..]| && sorted[1..][k] == rest[j];
          assert rest[j] == sorted[k + 1];
        }
      }
    }
  }

  lemma {:induction false} ByUrgencyIsOrdered(items: seq<Item>)
    ensures InOrder(ByUrgency(items))
    ensures multiset(ByUrgency(items)) == multiset(items)
  {
    if items != [] {
      ByUrgencyIsOrdered(items[1..]);
      InsertIsOrdered(items[0], ByUrgency(items[1..]));
      assert items == [items[0]] + items[1..];
    }
  }

  /** What the docstring promises of any two items, the first listed before the second: a sign-in
      before anything else; then the sooner due, the undated last; then the higher priority. */
  lemma UrgencyMeans(items: seq<Item>, i: nat, j: nat)
    requires i < j < |ByUrgency(items)|
    ensures var x, y := ByUrgency(items)[i], ByUrgency(items)[j];
            && (y.kind == NewSignIn ==> x.kind == NewSignIn)
            && ((x.kind == NewSignIn) == (y.kind == NewSignIn) ==>
                 && (y.dueOn.Some? ==> x.dueOn.Some? && x.dueOn.value <= y.dueOn.value)
                 && (x.dueOn == y.dueOn ==> Priority(x.kind) <= Priority(y.kind))
                 && (x.dueOn == y.dueOn && x.kind == y.kind ==> TextLeq(Tie(x), Tie(y))))
  {
    ByUrgencyIsOrdered(items);
    assert Before(ByUrgency(items)[i], ByUrgency(items)[j]);
  }

  /** The kinds in their order of priority. */
  lemma PriorityIsThePlace(kind: Kind)
    ensures var order := [
              NewSignIn, DeletionPending, PhoneChangePending, UpiChangePending, RespondToDispute, PayCreator,
              ConfirmPayment, PaymentOverdue, ReviewProof, ReviewDraft, ResubmitWork, ReviseDraft, DeliverWork,
              ShowDraft, AnswerMemo, AnswerInvitation, ReviseMemo, DraftMemo, ReviewApplications,
              FixDomainRecord, DomainLapsed, DomainClaimExpired];
            Priority(kind) < |order| && order[Priority(kind)] == kind
  {}

  /** How much an item puts at stake: the whole account; where the money goes; a record against
      somebody; or the day's work. */
  function Stake(kind: Kind): nat {
    if kind == NewSignIn then 0
    else if kind in {DeletionPending, PhoneChangePending} then 1
    else if kind == UpiChangePending then 2
    else if kind in {RespondToDispute, PayCreator, ConfirmPayment, PaymentOverdue} then 3
    else 4
  }

  /** Of two items due the same day, or both undated, the one with more at stake comes first. */
  lemma MoreAtStakeFirst(items: seq<Item>, i: nat, j: nat)
    requires i < j < |ByUrgency(items)| && ByUrgency(items)[i].dueOn == ByUrgency(items)[j].dueOn
    ensures Stake(ByUrgency(items)[i].kind) <= Stake(ByUrgency(items)[j].kind)
  {
    UrgencyMeans(items, i, j);
    StakeGrows(ByUrgency(items)[i].kind, ByUrgency(items)[j].kind);
  }

  lemma StakeGrows(a: Kind, b: Kind)
    requires Priority(a) <= Priority(b)
    ensures Stake(a) <= Stake(b)
  {}

  predicate Given(id: Option<string>) {
    id.Some? && id.value != ""
  }

  /** The last word between two items is the first id there is, proof before draft before memo before
      application before campaign before domain before session; an item with none says None. */
  lemma TieIsTheFirstId(item: Item)
    ensures Given(item.proof) ==> Tie(item) == item.proof.value
    ensures !Given(item.proof) && Given(item.draft) ==> Tie(item) == item.draft.value
    ensures !Given(item.proof) && !Given(item.draft) ==>
              && (Given(item.memo) ==> Tie(item) == item.memo.value)
              && (!Given(item.memo) && Given(item.application) ==> Tie(item) == item.application.value)
    ensures !Given(item.proof) && !Given(item.draft) && !Given(item.memo) && !Given(item.application) ==>
              && (Given(item.campaign) ==> Tie(item) == item.campaign.value)
              && (!Given(item.campaign) && Given(item.domain) ==> Tie(item) == item.domain.value)
              && (!Given(item.campaign) && !Given(item.domain) ==>
                   Tie(item) == if item.session.Some? then item.session.value else "None")
  {}

  /** Ids are compared as text is: by the first character they differ in, and a beginning comes before
      what it begins. */
  lemma {:induction false} TextLeqByCharacters(a: string, b: string)
    ensures TextLeq(a, b) <==> a <= b || exists k :: 0 <= k < |a| && DiffersFirstAt(a, b, k) && a[k] < b[k]
    decreases a
  {
    if a != "" && b != "" {
      TextLeqByCharacters(a[1..], b[1..]);
      if a[0] == b[0] {
        assert a == [a[0]] + a[1..] && b == [b[0]] + b[1..];
        if k :| 0 <= k < |a[1..]| && DiffersFirstAt(a[1..], b[1..], k) && a[1..][k] < b[1..][k] {
          assert DiffersFirstAt(a, b, k + 1);
        }
        if k :| 0 <= k < |a| && DiffersFirstAt(a, b, k) && a[k] < b[k] {
          assert DiffersFirstAt(a[1..], b[1..], k - 1);
        }
      } else if a[0] < b[0] {
        assert DiffersFirstAt(a, b, 0);
      }
    }
  }

  predicate DiffersFirstAt(a: string, b: string, k: int) {
    0 <= k < |a| && k < |b| && a[k] != b[k] && forall n :: 0 <= n < k ==> a[n] == b[n]
  }

  /** The items of one key, in their order. */
  function Only(items: seq<Item>, key: Key): seq<Item> {
    if items == [] then []
    else (if KeyOf(items[0]) == key then [items[0]] else []) + Only(items[1..], key)
  }

  lemma {:induction false} InsertIsStable(item: Item, sorted: seq<Item>, key: Key)
    ensures Only(Insert(item, sorted), key) == Only([item], key) + Only(sorted, key)
  {
    assert [item][1..] == [];
    if sorted == [] || Before(item, sorted[0]) {
      assert ([item] + sorted)[1..] == sorted;
    } else {
      InsertIsStable(item, sorted[1..], key);
      assert Insert(item, sorted)[1..] == Insert(item, sorted[1..]);
      BeforeIsReflexive(item);
    }
  }

  lemma BeforeIsReflexive(x: Item)
    ensures Before(x, x)
  {
    TextTotal(Tie(x), Tie(x));
  }

  lemma {:induction false} ByUrgencyIsStable(items: seq<Item>, key: Key)
    ensures Only(ByUrgency(items), key) == Only(items, key)
  {
    if items != [] {
      ByUrgencyIsStable(items[1..], key);
      InsertIsStable(items[0], ByUrgency(items[1..]), key);
      assert [items[0]][1..] == [];
    }
  }

  // ---- the same records, the same order ------------------------------------------------------------

  /** Items that share a key are the same item. */
  ghost predicate KeysTellApart(items: seq<Item>) {
    forall x, y :: x in items && y in items && KeyOf(x) == KeyOf(y) ==> x == y
  }

  lemma FirstIsLeast(a: seq<Item>, x: Item)
    requires InOrder(a) && x in a
    ensures Before(a[0], x)
  {
    BeforeIsReflexive(a[0]);
    var i :| 0 <= i < |a| && a[i] == x;
  }

  lemma TailCounts(a: seq<Item>)
    requires a != []
    ensures multiset(a) == multiset{a[0]} + multiset(a[1..])
    ensures forall x :: x in a[1..] ==> x in a
  {
    assert a == [a[0]] + a[1..];
  }

  lemma SameMembers(a: seq<Item>, b: seq<Item>)
    requires multiset(a) == multiset(b)
    ensures |a| == |b| && forall x :: x in a <==> x in b
  {
    assert |multiset(a)| == |a| && |multiset(b)| == |b|;
    assert forall x :: x in a <==> x in multiset(a);
    assert forall x :: x in b <==> x in multiset(b);
  }

  lemma {:induction false} OrderedIsUnique(a: seq<Item>, b: seq<Item>)
    requires InOrder(a) && InOrder(b) && multiset(a) == multiset(b) && KeysTellApart(a)
    ensures a == b
  {
    SameMembers(a, b);
    if a != [] {
      FirstIsLeast(a, b[0]);
      FirstIsLeast(b, a[0]);
      BeforeTotal(a[0], b[0]);
      TailCounts(a);
      TailCounts(b);
      assert multiset(a[1..]) == multiset(a) - multiset{a[0]};
      assert multiset(b[1..]) == multiset(b) - multiset{b[0]};
      OrderedIsUnique(a[1..], b[1..]);
    }
  }

  ghost predicate AlwaysTheSame(items: seq<Item>) {
    forall other: seq<Item> :: multiset(other) == multiset(items) ==> ByUrgency(other) == ByUrgency(items)
  }

  lemma WithoutTwo(items: seq<Item>, x: Item, y: Item) returns (rest: seq<Item>)
    requires x in items && y in items && x != y
    ensures multiset(items) == multiset{x, y} + multiset(rest)
  {
    rest := Without(Without(items, x), y);
  }

  lemma SharedKeyOrders(items: seq<Item>, x: Item, y: Item)
    requires x in items && y in items && x != y && KeyOf(x) == KeyOf(y)
    ensures !AlwaysTheSame(items)
  {
    var rest := WithoutTwo(items, x, y);
    TwoOrders([x, y] + rest, [y, x] + rest, x, y, rest);
  }

  lemma TwoOrders(one: seq<Item>, other: seq<Item>, x: Item, y: Item, rest: seq<Item>)
    requires x != y && KeyOf(x) == KeyOf(y) && one == [x, y] + rest && other == [y, x] + rest
    ensures ByUrgency(one) != ByUrgency(other)
    ensures multiset(one) == multiset(other) == multiset{x, y} + multiset(rest)
  {
    TwoInFront(x, y, rest);
    TwoInFront(y, x, rest);
    FirstOfKeyKept(one, KeyOf(x), x);
    FirstOfKeyKept(other, KeyOf(x), y);
  }

  /** Sorting keeps the first item of a key first of that key. */
  lemma FirstOfKeyKept(items: seq<Item>, key: Key, first: Item)
    requires |Only(items, key)| > 0 && Only(items, key)[0] == first
    ensures |Only(ByUrgency(items), key)| > 0 && Only(ByUrgency(items), key)[0] == first
  {
    ByUrgencyIsStable(items, key);
  }

  lemma TwoInFront(x: Item, y: Item, rest: seq<Item>)
    requires KeyOf(x) == KeyOf(y)
    ensures multiset([x, y] + rest) == multiset{x, y} + multiset(rest)
    ensures |Only([x, y] + rest, KeyOf(x))| >= 2 && Only([x, y] + rest, KeyOf(x))[0] == x
  {
    OnlyOfTwo(x, y, rest);
  }

  lemma OnlyOfTwo(x: Item, y: Item, rest: seq<Item>)
    requires KeyOf(x) == KeyOf(y)
    ensures Only([x, y] + rest, KeyOf(x)) == [x, y] + Only(rest, KeyOf(x))
  {
    assert ([x, y] + rest)[1..] == [y] + rest && ([y] + rest)[1..] == rest;
  }

  /** `items` less one `x`. */
  function Without(items: seq<Item>, x: Item): (rest: seq<Item>)
    requires x in items
    ensures multiset(rest) == multiset(items) - multiset{x}
    ensures forall y :: y in items && y != x ==> y in rest
  {
    assert items == [items[0]] + items[1..];
    if items[0] == x then items[1..]
    else
      assert x in items[1..];
      [items[0]] + Without(items[1..], x)
  }

  /** Two different items can share a key: of one kind and date, with none of the seven ids. */
  lemma TwoCanShareAKey()
    ensures var x := Item(ReviewApplications, None, None, None, None, None, None, None, None, "three to review");
            var y := x.(facts := "four to review");
            x != y && KeyOf(x) == KeyOf(y) && !AlwaysTheSame([x, y])
  {
    var x := Item(ReviewApplications, None, None, None, None, None, None, None, None, "three to review");
    var y := x.(facts := "four to review");
    assert "three to review" != "four to review" by { assert |"three to review"| == 15 && |"four to review"| == 14; }
    assert x in [x, y] && y in [x, y];
    SharedKeyOrders([x, y], x, y);
  }

  /** The docstring says the same records always give the same order. They do, whatever order they
      are gathered in, exactly when no two different items share a key. */
  lemma SameRecordsSameOrder(items: seq<Item>)
    ensures AlwaysTheSame(items) <==> KeysTellApart(items)
  {
    if KeysTellApart(items) {
      forall other: seq<Item> | multiset(other) == multiset(items) ensures ByUrgency(other) == ByUrgency(items) {
        ByUrgencyIsOrdered(items);
        ByUrgencyIsOrdered(other);
        forall x | x in ByUrgency(items) ensures x in items {
          assert x in multiset(ByUrgency(items));
        }
        OrderedIsUnique(ByUrgency(items), ByUrgency(other));
      }
    } else {
      var x, y :| x in items && y in items && KeyOf(x) == KeyOf(y) && x != y;
      SharedKeyOrders(items, x, y);
    }
  }
}
