/**
 The opaque page cursor (encode_cursor and decode_cursor in app/core/pagination.py): a time and
 a row id in unpadded base64url, the alphabet of section 5 of RFC 4648.

 `isoformat` and the printing of a UUID are parameters: printers whose text can be read back.
 */
module CursorText {
  import opened Wrappers

  type byte = b: int | 0 <= b < 256
  type sextet = v: int | 0 <= v < 64

  const SEPARATOR: byte := 124   // '|'

  // ---- base64.urlsafe_b64encode and rstrip("=") ------------------------------------------------

  function Symbol(v: sextet): char {
    if v < 26 then 'A' + v as char
    else if v < 52 then 'a' + (v - 26) as char
    else if v < 62 then '0' + (v - 52) as char
    else if v == 62 then '-' else '_'
  }

  function Encode(bytes: seq<byte>): string {
    if |bytes| == 0 then ""
    else if |bytes| == 1 then
      [Symbol(bytes[0] / 4), Symbol(bytes[0] % 4 * 16), '=', '=']
    else if |bytes| == 2 then
      [Symbol(bytes[0] / 4), Symbol(bytes[0] % 4 * 16 + bytes[1] / 16), Symbol(bytes[1] % 16 * 4), '=']
    else
      [Symbol(bytes[0] / 4), Symbol(bytes[0] % 4 * 16 + bytes[1] / 16),
       Symbol(bytes[1] % 16 * 4 + bytes[2] / 64), Symbol(bytes[2] % 64)] + Encode(bytes[3..])
  }

  function StripPadding(text: string): string {
    if text != "" && text[|text| - 1] == '=' then StripPadding(text[..|text| - 1]) else text
  }

  function Equals(n: nat): string {
    seq(n, _ => '=')
  }

  /** cursor + "=" * (-len(cursor) % 4). */
  function RestorePadding(text: string): string {
    text + Equals((-|text|) % 4)
  }

  // ---- base64.urlsafe_b64decode ---------------------------------------------------------------

  /** Both alphabets: '-' and '_' are first turned into '+' and '/'. */
  function Value(c: char): Option<sextet> {
    if 'A' <= c <= 'Z' then Some((c - 'A') as int)
    else if 'a' <= c <= 'z' then Some((c - 'a') as int + 26)
    else if '0' <= c <= '9' then Some((c - '0') as int + 52)
    else if c == '-' || c == '+' then Some(62)
    else if c == '_' || c == '/' then Some(63)
    else None
  }

  /** The decoder's loop, one character at a time: `quad` characters of the present group are
      read, `left` holds their bits not yet given out, `pads` counts the padding. Other
      ASCII characters are skipped; text after complete padding is ignored; a group cut short is an
      error. */
  function Decode(text: string, quad: nat, left: nat, pads: nat): Option<seq<byte>>
    requires quad < 4
    requires (quad == 1 ==> left < 64) && (quad == 2 ==> left < 16) && (quad == 3 ==> left < 4)
    decreases text
  {
    if text == "" then (if quad == 0 then Some([]) else None)
    else if text[0] == '=' then
      if quad >= 2 && quad + pads + 1 >= 4 then Some([])
      else Decode(text[1..], quad, left, if quad >= 2 then pads + 1 else pads)
    else
      match Value(text[0])
      case None => Decode(text[1..], quad, left, pads)
      case Some(v) =>
        if quad == 0 then Decode(text[1..], 1, v, 0)
        else if quad == 1 then Emit(left * 4 + v / 16, Decode(text[1..], 2, v % 16, 0))
        else if quad == 2 then Emit(left * 16 + v / 4, Decode(text[1..], 3, v % 4, 0))
        else Emit(left * 64 + v, Decode(text[1..], 0, 0, 0))
  }

  function Emit(b: byte, rest: Option<seq<byte>>): Option<seq<byte>> {
    match rest
    case None => None
    case Some(bytes) => Some([b] + bytes)
  }

  // ---- the round trip ------------------------------------------------------------------------

  lemma SymbolHasItsValue(v: sextet)
    ensures Value(Symbol(v)) == Some(v) && Symbol(v) != '='
  {}

  lemma DecodeSymbol(v: sextet, rest: string, quad: nat, left: nat, pads: nat)
    requires quad < 4
    requires (quad == 1 ==> left < 64) && (quad == 2 ==> left < 16) && (quad == 3 ==> left < 4)
    ensures var decoded := Decode([Symbol(v)] + rest, quad, left, pads);
            && (quad == 0 ==> decoded == Decode(rest, 1, v, 0))
            && (quad == 1 ==> decoded == Emit(left * 4 + v / 16, Decode(rest, 2, v % 16, 0)))
            && (quad == 2 ==> decoded == Emit(left * 16 + v / 4, Decode(rest, 3, v % 4, 0)))
            && (quad == 3 ==> decoded == Emit(left * 64 + v, Decode(rest, 0, 0, 0)))
  {
    SymbolHasItsValue(v);
    assert ([Symbol(v)] + rest)[1..] == rest;
  }

  lemma DecodeTwoSymbols(v: sextet, w: sextet, rest: string)
    ensures Decode([Symbol(v)] + ([Symbol(w)] + rest), 0, 0, 0) == Emit(v * 4 + w / 16, Decode(rest, 2, w % 16, 0))
  {
    DecodeSymbol(v, [Symbol(w)] + rest, 0, 0, 0);
    DecodeSymbol(w, rest, 1, v, 0);
  }

  lemma DecodeFourSymbols(v: sextet, w: sextet, x: sextet, y: sextet, rest: string)
    ensures Decode([Symbol(v), Symbol(w), Symbol(x), Symbol(y)] + rest, 0, 0, 0)
            == Emit(v * 4 + w / 16, Emit(w % 16 * 16 + x / 4, Emit(x % 4 * 64 + y, Decode(rest, 0, 0, 0))))
  {
    DecodeTwoSymbols(v, w, [Symbol(x)] + ([Symbol(y)] + rest));
    DecodeSymbol(x, [Symbol(y)] + rest, 2, w % 16, 0);
    DecodeSymbol(y, rest, 3, x % 4, 0);
    assert [Symbol(v), Symbol(w), Symbol(x), Symbol(y)] + rest
           == [Symbol(v)] + ([Symbol(w)] + ([Symbol(x)] + ([Symbol(y)] + rest)));
  }

  /** The bits of three bytes, in four sextets, are the bits of three bytes. */
  lemma Bits(a: byte, b: byte, c: byte)
    ensures (a / 4) * 4 + (a % 4 * 16 + b / 16) / 16 == a
    ensures (a % 4 * 16 + b / 16) % 16 * 16 + (b % 16 * 4 + c / 64) / 4 == b
    ensures (b % 16 * 4 + c / 64) % 4 * 64 + c % 64 == c
  {
    assert 0 <= b / 16 < 16 && 0 <= c / 64 < 4;
    assert (a % 4 * 16 + b / 16) / 16 == a % 4 && (a % 4 * 16 + b / 16) % 16 == b / 16;
    assert (b % 16 * 4 + c / 64) / 4 == b % 16 && (b % 16 * 4 + c / 64) % 4 == c / 64;
  }

  lemma DecodeGroup(a: byte, b: byte, c: byte, rest: string)
    ensures Decode([Symbol(a / 4), Symbol(a % 4 * 16 + b / 16), Symbol(b % 16 * 4 + c / 64), Symbol(c % 64)] + rest, 0, 0, 0)
            == Emit(a, Emit(b, Emit(c, Decode(rest, 0, 0, 0))))
  {
    DecodeFourSymbols(a / 4, a % 4 * 16 + b / 16, b % 16 * 4 + c / 64, c % 64, rest);
    Bits(a, b, c);
  }

  lemma DecodeOne(a: byte)
    ensures Decode([Symbol(a / 4), Symbol(a % 4 * 16), '=', '='], 0, 0, 0) == Some([a])
  {
    var v: sextet, w: sextet := a / 4, a % 4 * 16;
    assert "=="[1..] == "=" && Decode("=", 2, 0, 1) == Some([]);
    assert Decode("==", 2, 0, 0) == Some([]);
    DecodeTwoSymbols(v, w, "==");
    Bits(a, 0, 0);
    assert w % 16 == 0 && v * 4 + w / 16 == a;
    assert [a] + [] == [a];
    assert [Symbol(v), Symbol(w), '=', '='] == [Symbol(v)] + ([Symbol(w)] + "==");
  }

  lemma DecodeTwo(a: byte, b: byte)
    ensures Decode([Symbol(a / 4), Symbol(a % 4 * 16 + b / 16), Symbol(b % 16 * 4), '='], 0, 0, 0) == Some([a, b])
  {
    var v: sextet, w: sextet, x: sextet := a / 4, a % 4 * 16 + b / 16, b % 16 * 4;
    assert Decode("=", 3, 0, 0) == Some([]);
    Bits(a, b, 0);
    DecodeTwoSymbols(v, w, [Symbol(x)] + "=");
    DecodeSymbol(x, "=", 2, w % 16, 0);
    assert x % 4 == 0 && v * 4 + w / 16 == a && w % 16 * 16 + x / 4 == b;
    assert [b] + [] == [b] && [a] + [b] == [a, b];
    assert [Symbol(v), Symbol(w), Symbol(x), '='] == [Symbol(v)] + ([Symbol(w)] + ([Symbol(x)] + "="));
  }

  /** Padded base64 reads back, for every byte length. */
  lemma {:induction false} DecodeEncode(bytes: seq<byte>)
    ensures Decode(Encode(bytes), 0, 0, 0) == Some(bytes)
    decreases bytes
  {
    if |bytes| == 1 {
      DecodeOne(bytes[0]);
      assert bytes == [bytes[0]];
    } else if |bytes| == 2 {
      DecodeTwo(bytes[0], bytes[1]);
      assert bytes == [bytes[0], bytes[1]];
    } else if |bytes| >= 3 {
      DecodeEncode(bytes[3..]);
      DecodeGroup(bytes[0], bytes[1], bytes[2], Encode(bytes[3..]));
      assert bytes == [bytes[0]] + ([bytes[1]] + ([bytes[2]] + bytes[3..]));
    }
  }

  /** A character that means itself anywhere in a URL. */
  predicate UrlSafe(c: char) {
    'A' <= c <= 'Z' || 'a' <= c <= 'z' || '0' <= c <= '9' || c == '-' || c == '_'
  }

  predicate AllUrlSafe(text: string) {
    forall i :: 0 <= i < |text| ==> UrlSafe(text[i])
  }

  lemma ShortShape(bytes: seq<byte>) returns (symbols: string)
    requires |bytes| < 3
    ensures AllUrlSafe(symbols) && |bytes| * 8 <= |symbols| * 6 < |bytes| * 8 + 6
    ensures Encode(bytes) == RestorePadding(symbols)
  {
    if |bytes| == 0 {
      symbols := "";
    } else if |bytes| == 1 {
      symbols := Encode(bytes)[..2];
      assert Equals(2) == "==";
    } else {
      symbols := Encode(bytes)[..3];
      assert Equals(1) == "=";
    }
  }

  lemma GroupShape(bytes: seq<byte>) returns (group: string)
    requires |bytes| >= 3
    ensures AllUrlSafe(group) && |group| == 4 && Encode(bytes) == group + Encode(bytes[3..])
  {
    group := Encode(bytes)[..4];
  }

  /** Symbols first, as many as six bits each take; then as much padding as their number asks for. */
  lemma {:induction false} EncodedShape(bytes: seq<byte>) returns (symbols: string)
    ensures AllUrlSafe(symbols) && |bytes| * 8 <= |symbols| * 6 < |bytes| * 8 + 6
    ensures Encode(bytes) == RestorePadding(symbols)
    decreases bytes
  {
    if |bytes| < 3 {
      symbols := ShortShape(bytes);
    } else {
      var group := GroupShape(bytes);
      var rest := EncodedShape(bytes[3..]);
      GroupThenRest(group, rest);
      symbols := group + rest;
    }
  }

  /** Padding goes, symbols stay. */
  lemma StrippedIsSymbols(bytes: seq<byte>) returns (symbols: string)
    ensures AllUrlSafe(symbols) && |bytes| * 8 <= |symbols| * 6 < |bytes| * 8 + 6
    ensures Encode(bytes) == RestorePadding(symbols) && StripPadding(Encode(bytes)) == symbols
  {
    symbols := EncodedShape(bytes);
    StripEquals(symbols, (-|symbols|) % 4);
  }

  lemma GroupThenRest(group: string, rest: string)
    requires |group| == 4
    ensures group + RestorePadding(rest) == RestorePadding(group + rest)
  {
    assert |group + rest| == 4 + |rest|;
    assert (-(4 + |rest|)) % 4 == (-|rest|) % 4;
  }

  lemma {:induction false} StripEquals(symbols: string, n: nat)
    requires '=' !in symbols
    ensures StripPadding(symbols + Equals(n)) == symbols
    decreases n
  {
    if n > 0 {
      StripEquals(symbols, n - 1);
      assert (symbols + Equals(n))[..|symbols| + n - 1] == symbols + Equals(n - 1);
    } else {
      assert symbols + Equals(0) == symbols;
    }
  }

  /** Padding stripped and put back by the length alone is the padding there was. */
  lemma Base64RoundTrip(bytes: seq<byte>)
    ensures Decode(RestorePadding(StripPadding(Encode(bytes))), 0, 0, 0) == Some(bytes)
  {
    var symbols := StrippedIsSymbols(bytes);
    DecodeEncode(bytes);
  }

  // ---- the cursor ------------------------------------------------------------------------------

  /** A printer and its reader. */
  datatype Text<!T> = Text(show: T -> seq<byte>, read: seq<byte> -> Option<T>)

  /** What is printed is ASCII without '|', and reads back. */
  ghost predicate Faithful<T(!new)>(text: Text<T>) {
    forall x :: text.read(text.show(x)) == Some(x)
      && forall i :: 0 <= i < |text.show(x)| ==> text.show(x)[i] < 128 && text.show(x)[i] != SEPARATOR
  }

  /** bytes.decode() accepts any ASCII. */
  ghost predicate AcceptsAscii(utf8: seq<byte> -> bool) {
    forall bytes :: (forall i :: 0 <= i < |bytes| ==> bytes[i] < 128) ==> utf8(bytes)
  }

  /** raw.split("|"): the parts between separators, never fewer than one. */
  function Split(raw: seq<byte>): (parts: seq<seq<byte>>)
    ensures parts != []
  {
    if raw == [] then [[]]
    else if raw[0] == SEPARATOR then [[]] + Split(raw[1..])
    else var parts := Split(raw[1..]); [[raw[0]] + parts[0]] + parts[1..]
  }

  function EncodeCursor<T, I>(times: Text<T>, ids: Text<I>, time: T, id: I): string {
    StripPadding(Encode(times.show(time) + [SEPARATOR] + ids.show(id)))
  }

  datatype Refusal = InvalidCursor

  /** Other text is refused before it is decoded. */
  predicate Ascii(text: string) {
    forall i :: 0 <= i < |text| ==> text[i] < 128 as char
  }

  lemma {:induction false} EncodedIsAscii(bytes: seq<byte>)
    ensures Ascii(Encode(bytes))
    decreases bytes
  {
    if |bytes| > 2 {
      EncodedIsAscii(bytes[3..]);
    }
  }

  lemma {:induction false} StrippedIsAscii(text: string)
    requires Ascii(text)
    ensures Ascii(StripPadding(text))
    decreases text
  {
    if text != "" && text[|text| - 1] == '=' {
      StrippedIsAscii(text[..|text| - 1]);
    }
  }

  function DecodeCursor<T, I>(times: Text<T>, ids: Text<I>, utf8: seq<byte> -> bool, cursor: string): Result<(T, I), Refusal> {
    if !Ascii(cursor) then Err(InvalidCursor)
    else match Decode(RestorePadding(cursor), 0, 0, 0)
    case None => Err(InvalidCursor)
    case Some(raw) =>
      if !utf8(raw) then Err(InvalidCursor)
      else
        var parts := Split(raw);
        if |parts| != 2 then Err(InvalidCursor)
        else
          match (times.read(parts[0]), ids.read(parts[1]))
          case (Some(time), Some(id)) => Ok((time, id))
          case _ => Err(InvalidCursor)
  }

  lemma {:induction false} SplitWithout(raw: seq<byte>)
    requires SEPARATOR !in raw
    ensures Split(raw) == [raw]
    decreases raw
  {
    if raw != [] {
      SplitWithout(raw[1..]);
      assert [raw[0]] + raw[1..] == raw;
    }
  }

  lemma {:induction false} SplitInTwo(a: seq<byte>, b: seq<byte>)
    requires SEPARATOR !in a && SEPARATOR !in b
    ensures Split(a + [SEPARATOR] + b) == [a, b]
    decreases a
  {
    var raw := a + [SEPARATOR] + b;
    if a == [] {
      assert raw[1..] == b;
      SplitWithout(b);
    } else {
      assert raw[1..] == a[1..] + [SEPARATOR] + b;
      SplitInTwo(a[1..], b);
      assert [a[0]] + a[1..] == a;
    }
  }

  /** Every cursor this code hands out reads back as the row it was made from. */
  lemma CursorRoundTrip<T(!new), I(!new)>(times: Text<T>, ids: Text<I>, utf8: seq<byte> -> bool, time: T, id: I)
    requires Faithful(times) && Faithful(ids) && AcceptsAscii(utf8)
    ensures DecodeCursor(times, ids, utf8, EncodeCursor(times, ids, time, id)) == Ok((time, id))
  {
    var raw := times.show(time) + [SEPARATOR] + ids.show(id);
    assert times.read(times.show(time)) == Some(time) && ids.read(ids.show(id)) == Some(id);
    Base64RoundTrip(raw);
    EncodedIsAscii(raw);
    StrippedIsAscii(Encode(raw));
    SplitInTwo(times.show(time), ids.show(id));
    forall i | 0 <= i < |raw| ensures raw[i] < 128 {
      assert raw[i] in times.show(time) || raw[i] == SEPARATOR || raw[i] in ids.show(id);
    }
    assert utf8(raw);
  }

  /** So different rows never share a cursor. */
  lemma CursorsTellRowsApart<T(!new), I(!new)>(times: Text<T>, ids: Text<I>, utf8: seq<byte> -> bool, time: T, id: I, time': T, id': I)
    requires Faithful(times) && Faithful(ids) && AcceptsAscii(utf8)
    ensures EncodeCursor(times, ids, time, id) == EncodeCursor(times, ids, time', id') <==> time == time' && id == id'
  {
    CursorRoundTrip(times, ids, utf8, time, id);
    CursorRoundTrip(times, ids, utf8, time', id');
  }

  /** One character too many for a whole byte is refused, whatever the printers. */
  lemma {:induction false} LoneCharacterIsRefused<T(!new), I(!new)>(times: Text<T>, ids: Text<I>, utf8: seq<byte> -> bool, bytes: seq<byte>, v: sextet)
    requires |bytes| % 3 == 0
    ensures DecodeCursor(times, ids, utf8, Encode(bytes) + [Symbol(v)]) == Err(InvalidCursor)
  {
    EncodedWhole(bytes);
    assert RestorePadding(Encode(bytes) + [Symbol(v)]) == Encode(bytes) + ([Symbol(v)] + Equals(3));
    DecodeThenLone(bytes, v);
  }

  lemma {:induction false} EncodedWhole(bytes: seq<byte>)
    requires |bytes| % 3 == 0
    ensures |Encode(bytes)| % 4 == 0
    decreases bytes
  {
    if bytes != [] {
      EncodedWhole(bytes[3..]);
    }
  }

  lemma {:induction false} DecodeThenLone(bytes: seq<byte>, v: sextet)
    requires |bytes| % 3 == 0
    ensures Decode(Encode(bytes) + ([Symbol(v)] + Equals(3)), 0, 0, 0) == None
    decreases bytes
  {
    if bytes == [] {
      assert Encode(bytes) + ([Symbol(v)] + Equals(3)) == [Symbol(v)] + Equals(3);
      DecodeSymbol(v, Equals(3), 0, 0, 0);
      assert Equals(3)[1..] == Equals(2) && Equals(2)[1..] == Equals(1) && Equals(1)[1..] == "";
      assert Decode(Equals(1), 1, v, 0) == None;
      assert Decode(Equals(2), 1, v, 0) == None;
    } else {
      DecodeThenLone(bytes[3..], v);
      var rest := Encode(bytes[3..]) + ([Symbol(v)] + Equals(3));
      DecodeGroup(bytes[0], bytes[1], bytes[2], rest);
      assert Encode(bytes) + ([Symbol(v)] + Equals(3)) == Encode(bytes)[..4] + rest;
    }
  }

  // ---- what a cursor looks like, and which are accepted --------------------------------------------

  /** A cursor goes into a URL as it is, and takes six bits a character: no padding, no escaping. */
  lemma CursorIsUrlSafe<T, I>(times: Text<T>, ids: Text<I>, time: T, id: I)
    ensures var cursor, bytes := EncodeCursor(times, ids, time, id), |times.show(time)| + 1 + |ids.show(id)|;
            && (forall i :: 0 <= i < |cursor| ==> UrlSafe(cursor[i]))
            && |cursor| == (bytes * 8 + 5) / 6
  {
    var symbols := StrippedIsSymbols(times.show(time) + [SEPARATOR] + ids.show(id));
  }

  /** The test vectors of section 10 of RFC 4648, and one for each of the two symbols in which its two
      alphabets differ. */
  lemma AsTheStandardHasIt()
    ensures Encode([102]) == "Zg==" && Encode([102, 111]) == "Zm8=" && Encode([102, 111, 111]) == "Zm9v"
    ensures Encode([102, 111, 111, 98, 97, 114]) == "Zm9vYmFy"
    ensures Encode([251]) == "-w==" && Encode([255]) == "_w=="
  {
    assert [102, 111, 111, 98, 97, 114][3..] == [98, 97, 114];
    assert Encode([98, 97, 114]) == "YmFy";
  }

  /** Exactly these texts are accepted: ASCII that decodes to text with one bar in it, a time before
      the bar and an id after it. */
  lemma AcceptedCursors<T(!new), I(!new)>(times: Text<T>, ids: Text<I>, utf8: seq<byte> -> bool, cursor: string, time: T, id: I)
    ensures DecodeCursor(times, ids, utf8, cursor) == Ok((time, id)) <==>
            Ascii(cursor) && exists a, b :: ReadsAs(times, ids, utf8, cursor, time, id, a, b)
  {
    if DecodeCursor(times, ids, utf8, cursor) == Ok((time, id)) {
      var raw := Decode(RestorePadding(cursor), 0, 0, 0).value;
      SplitJoins(raw);
      assert ReadsAs(times, ids, utf8, cursor, time, id, Split(raw)[0], Split(raw)[1]);
    }
    if a, b :| ReadsAs(times, ids, utf8, cursor, time, id, a, b) {
      SplitInTwo(a, b);
    }
  }

  /** `cursor` stands for these two texts with a bar between them, a time and an id. */
  ghost predicate ReadsAs<T(!new), I(!new)>(times: Text<T>, ids: Text<I>, utf8: seq<byte> -> bool, cursor: string,
                                            time: T, id: I, a: seq<byte>, b: seq<byte>)
  {
    && Decode(RestorePadding(cursor), 0, 0, 0) == Some(a + [124] + b) && utf8(a + [124] + b)
    && 124 !in a && 124 !in b
    && times.read(a) == Some(time) && ids.read(b) == Some(id)
  }

  lemma {:induction false} SplitJoins(raw: seq<byte>)
    ensures forall part :: part in Split(raw) ==> SEPARATOR !in part
    ensures |Split(raw)| == 2 ==> raw == Split(raw)[0] + [SEPARATOR] + Split(raw)[1]
    ensures |Split(raw)| == 1 ==> raw == Split(raw)[0]
    decreases raw
  {
    if raw != [] {
      SplitJoins(raw[1..]);
      assert raw == [raw[0]] + raw[1..];
      var parts := Split(raw[1..]);
      if raw[0] == SEPARATOR {
        assert forall part :: part in Split(raw) ==> part == [] || part in parts;
      } else {
        assert forall part :: part in Split(raw) ==> part == [raw[0]] + parts[0] || part in parts;
      }
    }
  }
}
