/** The opaque cursors a client hands back: base64url text around a position, and what decoding makes of it. */
module Cursors {
  import opened Prelude

  // ---------------------------------------------------------------- base64url (RFC 4648, section 5)

  type Byte = b: int | 0 <= b < 256

  /** The 6-bit value of a character; the plain base64 alphabet is accepted too, other characters are skipped. */
  function Sextet(c: char): (r: Option<nat>)
    ensures r.Some? ==> r.value < 64
  {
    if 'A' <= c <= 'Z' then Some(c as int - 'A' as int)
    else if 'a' <= c <= 'z' then Some(c as int - 'a' as int + 26)
    else if '0' <= c <= '9' then Some(c as int - '0' as int + 52)
    else if c == '-' || c == '+' then Some(62)
    else if c == '_' || c == '/' then Some(63)
    else None
  }

  function Letter(n: nat): (c: char)
    requires n < 64
    ensures Sextet(c) == Some(n)
  {
    if n < 26 then (n + 'A' as int) as char
    else if n < 52 then (n - 26 + 'a' as int) as char
    else if n < 62 then (n - 52 + '0' as int) as char
    else if n == 62 then '-' else '_'
  }

  function Letters(s: seq<nat>): (r: string)
    requires forall i :: 0 <= i < |s| ==> s[i] < 64
    ensures |r| == |s| && forall i :: 0 <= i < |s| ==> r[i] == Letter(s[i])
  {
    seq(|s|, i requires 0 <= i < |s| => Letter(s[i]))
  }

  /** The four 6-bit values of three bytes, and of fewer. */
  function Split(bytes: seq<Byte>): (r: seq<nat>)
    requires 1 <= |bytes| <= 3
    ensures |r| == |bytes| + 1 && forall i :: 0 <= i < |r| ==> r[i] < 64
  {
    if |bytes| == 1 then [bytes[0] / 4, bytes[0] % 4 * 16]
    else if |bytes| == 2 then [bytes[0] / 4, bytes[0] % 4 * 16 + bytes[1] / 16, bytes[1] % 16 * 4]
    else [bytes[0] / 4, bytes[0] % 4 * 16 + bytes[1] / 16, bytes[1] % 16 * 4 + bytes[2] / 64, bytes[2] % 64]
  }

  /** Three bytes become four letters; one or two left over become two or three, without padding. */
  function Encode(bytes: seq<Byte>): string {
    if bytes == [] then ""
    else if |bytes| <= 3 then Letters(Split(bytes))
    else Letters(Split(bytes[..3])) + Encode(bytes[3..])
  }

  function Sextets(text: string): (r: seq<nat>)
    ensures forall i :: 0 <= i < |r| ==> r[i] < 64
  {
    if text == "" then []
    else (if Sextet(text[0]).Some? then [Sextet(text[0]).value] else []) + Sextets(text[1..])
  }

  function Join(s: seq<nat>): seq<Byte>
    requires 2 <= |s| <= 4 && forall i :: 0 <= i < |s| ==> s[i] < 64
  {
    if |s| == 2 then [s[0] * 4 + s[1] / 16]
    else if |s| == 3 then [s[0] * 4 + s[1] / 16, s[1] % 16 * 16 + s[2] / 4]
    else [s[0] * 4 + s[1] / 16, s[1] % 16 * 16 + s[2] / 4, s[2] % 4 * 64 + s[3]]
  }

  /** A single value left over carries no whole byte and is dropped. */
  function BytesOf(s: seq<nat>): seq<Byte>
    requires forall i :: 0 <= i < |s| ==> s[i] < 64
  {
    if |s| < 2 then []
    else if |s| <= 4 then Join(s)
    else Join(s[..4]) + BytesOf(s[4..])
  }

  function Decode(text: string): seq<Byte> {
    BytesOf(Sextets(text))
  }

  lemma {:induction false} SextetsOfLetters(s: seq<nat>, rest: string)
    requires forall i :: 0 <= i < |s| ==> s[i] < 64
    ensures Sextets(Letters(s) + rest) == s + Sextets(rest)
  {
    if s == [] {
      assert Letters(s) + rest == rest;
    } else {
      SextetsOfLetters(s[1..], rest);
      assert (Letters(s) + rest)[1..] == Letters(s[1..]) + rest;
      Associate([s[0]], s[1..], Sextets(rest));
      assert [s[0]] + s[1..] == s;
    }
  }

  lemma JoinOfSplit(bytes: seq<Byte>)
    requires 1 <= |bytes| <= 3
    ensures Join(Split(bytes)) == bytes
  {
    if |bytes| == 3 {
      assert Join(Split(bytes)) == [bytes[0], bytes[1], bytes[2]];
    } else if |bytes| == 2 {
      assert Join(Split(bytes)) == [bytes[0], bytes[1]];
    } else {
      assert Join(Split(bytes)) == [bytes[0]];
    }
  }

  /** Decoding what was encoded gives the bytes back, whatever they are. */
  lemma {:induction false} DecodeOfEncode(bytes: seq<Byte>)
    ensures Decode(Encode(bytes)) == bytes
  {
    if 1 <= |bytes| <= 3 {
      SextetsOfLetters(Split(bytes), "");
      assert Letters(Split(bytes)) + "" == Letters(Split(bytes));
      JoinOfSplit(bytes);
    } else if bytes != [] {
      var s, rest := Split(bytes[..3]), Encode(bytes[3..]);
      SextetsOfLetters(s, rest);
      JoinOfSplit(bytes[..3]);
      DecodeOfEncode(bytes[3..]);
      assert (s + Sextets(rest))[..4] == s && (s + Sextets(rest))[4..] == Sextets(rest);
      EncodedIsLongEnough(bytes[3..]);
    }
  }

  lemma EncodedIsLongEnough(bytes: seq<Byte>)
    requires bytes != []
    ensures Sextets(Encode(bytes)) != []
  {
    var first := Split(if |bytes| <= 3 then bytes else bytes[..3]);
    var rest := if |bytes| <= 3 then "" else Encode(bytes[3..]);
    SextetsOfLetters(first, rest);
    assert |bytes| <= 3 ==> Letters(first) + "" == Letters(first);
  }

  /** How long the base64url text of so many bytes is. */
  function EncodedLength(bytes: nat): nat {
    (4 * bytes + 2) / 3
  }

  lemma {:induction false} EncodedLengthIs(bytes: seq<Byte>)
    ensures |Encode(bytes)| == EncodedLength(|bytes|)
  {
    if |bytes| > 3 { EncodedLengthIs(bytes[3..]); }
  }

  // ---------------------------------------------------------------- text inside JSON

  /** The bytes a character takes inside a JSON string in UTF-8: control characters are escaped, most of them at length. */
  function JsonBytes(c: char): (n: nat)
    ensures 1 <= n <= 6
  {
    if c == '"' || c == '\\' || c in SHORT_ESCAPES then 2
    else if c < ' ' then 6
    else if (c as int) < 0x80 then 1
    else if (c as int) < 0x800 then 2
    else if (c as int) < 0x10000 then 3
    else 4
  }

  /** Backspace, tab, line feed, form feed and carriage return. */
  const SHORT_ESCAPES := {'\U{8}', '\t', '\n', '\U{c}', '\r'}

  function JsonLength(s: string): nat {
    if s == "" then 0 else JsonLength(s[..|s| - 1]) + JsonBytes(s[|s| - 1])
  }

  /** The length of a text in UTF-16 units, which is what limits on its length count. */
  function Units(s: string): nat {
    if s == "" then 0 else Units(s[..|s| - 1]) + if (s[|s| - 1] as int) < 0x10000 then 1 else 2
  }

  lemma {:induction false} LengthsOfConcat(a: string, b: string)
    ensures Units(a + b) == Units(a) + Units(b) && JsonLength(a + b) == JsonLength(a) + JsonLength(b)
  {
    if b == "" {
      assert a + b == a;
    } else {
      LengthsOfConcat(a, b[..|b| - 1]);
      assert (a + b)[..|a + b| - 1] == a + b[..|b| - 1];
    }
  }

  lemma {:induction false} LengthsAreBounded(s: string)
    ensures |s| <= Units(s) <= 2 * |s| && JsonLength(s) <= 6 * |s|
  {
    if s != "" { LengthsAreBounded(s[..|s| - 1]); }
  }

  /** No control characters. */
  predicate Printable(s: string) {
    forall c :: c in s ==> c >= ' '
  }

  lemma {:induction false} PrintableIsShort(s: string)
    requires Printable(s)
    ensures JsonLength(s) <= 3 * Units(s)
  {
    if s != "" {
      var init := s[..|s| - 1];
      assert s[|s| - 1] in s;
      forall c | c in init ensures c >= ' ' {
        var i :| 0 <= i < |init| && init[i] == c;
        assert s[i] == c && s[i] in s;
      }
      PrintableIsShort(init);
    }
  }

  lemma {:induction false} DigitsArePlain(s: string)
    requires AllDigits(s)
    ensures Units(s) == |s| && JsonLength(s) == |s|
  {
    if s != "" {
      assert s[|s| - 1] in s;
      DigitsArePlain(s[..|s| - 1]);
    }
  }

  lemma {:induction false} LengthOfSame(c: char, n: nat)
    requires (c as int) < 0x10000
    ensures Units(seq(n, _ => c)) == n && JsonLength(seq(n, _ => c)) == n * JsonBytes(c)
  {
    if n > 0 {
      LengthOfSame(c, n - 1);
      assert seq(n, _ => c)[..n - 1] == seq(n - 1, _ => c);
    }
  }

  // ---------------------------------------------------------------- numbers and separators

  function Digit(n: nat): (c: char)
    requires n < 10
    ensures IsDigit(c) && DigitValue(c) == n
  {
    (n + '0' as int) as char
  }

  predicate IsDigit(c: char) {
    '0' <= c <= '9'
  }

  function DigitValue(c: char): nat
    requires IsDigit(c)
  {
    c as int - '0' as int
  }

  predicate AllDigits(s: string) {
    forall c :: c in s ==> IsDigit(c)
  }

  function Decimal(n: nat): (s: string)
    ensures s != "" && AllDigits(s)
  {
    if n < 10 then [Digit(n)] else Decimal(n / 10) + [Digit(n % 10)]
  }

  function Number(s: string): nat
    requires AllDigits(s)
  {
    if s == "" then 0 else Number(s[..|s| - 1]) * 10 + DigitValue(s[|s| - 1])
  }

  function PowerOfTen(k: nat): nat {
    if k == 0 then 1 else 10 * PowerOfTen(k - 1)
  }

  lemma {:induction false} NumberOfDecimal(n: nat)
    ensures Number(Decimal(n)) == n
  {
    if n < 10 {
      assert Number([Digit(n)][..0]) == 0;
    } else {
      NumberOfDecimal(n / 10);
      assert Decimal(n)[..|Decimal(n)| - 1] == Decimal(n / 10);
    }
  }

  /** A number has at most `k` digits exactly when it is below the k-th power of ten. */
  lemma {:induction false} DecimalLength(n: nat, k: nat)
    requires k >= 1
    ensures |Decimal(n)| <= k <==> n < PowerOfTen(k)
    decreases k
  {
    if k == 1 {
      assert PowerOfTen(1) == 10 * PowerOfTen(0);
    } else {
      if n >= 10 { DecimalLength(n / 10, k - 1); } else { PowersGrow(k); }
      assert PowerOfTen(k) == 10 * PowerOfTen(k - 1);
    }
  }

  lemma {:induction false} PowersGrow(k: nat)
    requires k >= 1
    ensures PowerOfTen(k) >= 10
  {
    if k > 1 { PowersGrow(k - 1); }
  }

  /** The text before and after the first separator. */
  function CutAt(s: string, c: char): Option<(string, string)> {
    if s == "" then None
    else if s[0] == c then Some(("", s[1..]))
    else
      match CutAt(s[1..], c)
      case None => None
      case Some(r) => Some(([s[0]] + r.0, r.1))
  }

  lemma {:induction false} CutAtFirst(a: string, c: char, b: string)
    requires c !in a
    ensures CutAt(a + [c] + b, c) == Some((a, b))
  {
    var s := a + [c] + b;
    if a == "" {
      assert s[1..] == b;
    } else {
      CutAtFirst(a[1..], c, b);
      assert s[1..] == a[1..] + [c] + b;
      assert [a[0]] + a[1..] == a;
    }
  }

  // ---------------------------------------------------------------- the three cursors

  /** How text becomes bytes and dates become text; both ways back give what was put in. */
  datatype Codec = Codec(utf8: string -> seq<Byte>, text: seq<Byte> -> string, iso: nat -> string,
      parse: string -> Option<nat>) {
    ghost predicate Faithful() {
      && (forall s :: text(utf8(s)) == s)
      && (forall t: nat :: parse(iso(t)) == Some(t) && iso(t) != "" && '|' !in iso(t))
    }
  }

  const ID_MAX: nat := 64

  /** `<created_at>|<id>`. */
  function EncodeDateCursor(k: Codec, created: nat, id: Id): string {
    Encode(k.utf8(k.iso(created) + "|" + id))
  }

  function DecodeDateCursor(k: Codec, cursor: string): Option<(nat, Id)> {
    match CutAt(k.text(Decode(cursor)), '|')
    case None => None
    case Some((iso, id)) =>
      if iso == "" || id == "" || Units(id) > ID_MAX then None
      else
        match k.parse(iso)
        case None => None
        case Some(t) => if k.iso(t) != iso then None else Some((t, id))
  }

  /** A creation cursor comes back as what it was made of, exactly for the ids the server hands out. */
  lemma DateCursorRoundTrip(k: Codec, created: nat, id: Id)
    requires k.Faithful()
    ensures DecodeDateCursor(k, EncodeDateCursor(k, created, id)) == Some((created, id)) <==> 1 <= Units(id) <= ID_MAX
  {
    var raw := k.iso(created) + "|" + id;
    DecodeOfEncode(k.utf8(raw));
    assert k.text(k.utf8(raw)) == raw;
    assert k.parse(k.iso(created)) == Some(created);
    CutAtFirst(k.iso(created), '|', id);
  }

  const SORT_DIGITS: nat := 10

  /** `<sort_order>#<id>`. */
  function EncodeSortCursor(k: Codec, order: nat, id: Id): string {
    Encode(k.utf8(Decimal(order) + "#" + id))
  }

  function DecodeSortCursor(k: Codec, cursor: string): Option<(nat, Id)> {
    match CutAt(k.text(Decode(cursor)), '#')
    case None => None
    case Some((digits, id)) =>
      if AllDigits(digits) && 1 <= |digits| <= SORT_DIGITS && 1 <= Units(id) <= ID_MAX then Some((Number(digits), id)) else None
  }

  lemma SortCursorRoundTrip(k: Codec, order: nat, id: Id)
    requires k.Faithful()
    ensures DecodeSortCursor(k, EncodeSortCursor(k, order, id)) == Some((order, id))
      <==> order < PowerOfTen(SORT_DIGITS) && 1 <= Units(id) <= ID_MAX
  {
    var raw := Decimal(order) + "#" + id;
    DecodeOfEncode(k.utf8(raw));
    assert k.text(k.utf8(raw)) == raw;
    CutAtFirst(Decimal(order), '#', id);
    NumberOfDecimal(order);
    DecimalLength(order, SORT_DIGITS);
  }

  const DEPTH_DIGITS: nat := 9
  const LINE_TERMINATORS := {'\n', '\r', '\U{2028}', '\U{2029}'}

  /** `<depth>:<id>`, the folder position inside a snapshot cursor. */
  function EncodePosition(depth: nat, id: Id): string {
    Decimal(depth) + ":" + id
  }

  /** A position that does not read as one restarts the folders. */
  function DecodePosition(text: string): Option<(nat, Id)> {
    match CutAt(text, ':')
    case None => None
    case Some((digits, id)) =>
      if AllDigits(digits) && 1 <= |digits| <= DEPTH_DIGITS && id != "" && (forall c :: c in id ==> c !in LINE_TERMINATORS)
      then Some((Number(digits), id)) else None
  }

  /** Whatever a written position is read back as, it is itself or nothing. */
  lemma PositionReadsAsItself(depth: nat, id: Id)
    ensures DecodePosition(EncodePosition(depth, id)) in {None, Some((depth, id))}
  {
    CutAtFirst(Decimal(depth), ':', id);
    NumberOfDecimal(depth);
  }

  lemma TenDigits()
    ensures PowerOfTen(1) == 10 && PowerOfTen(5) == 100000 && PowerOfTen(10) == 10000000000
  {
    assert PowerOfTen(3) == 1000;
    assert PowerOfTen(6) == 1000 * PowerOfTen(3);
    assert PowerOfTen(9) == 1000 * PowerOfTen(6);
  }

  lemma NineDigits()
    ensures PowerOfTen(DEPTH_DIGITS) == 1000000000
  {
    assert PowerOfTen(3) == 1000;
    assert PowerOfTen(6) == 1000 * PowerOfTen(3);
  }

  /** A folder position survives exactly for ids without line terminators; with one, the download of folders starts over. */
  lemma PositionRoundTrip(depth: nat, id: Id)
    ensures DecodePosition(EncodePosition(depth, id)) == Some((depth, id))
      <==> depth < PowerOfTen(DEPTH_DIGITS) && id != "" && forall c :: c in id ==> c !in LINE_TERMINATORS
  {
    CutAtFirst(Decimal(depth), ':', id);
    NumberOfDecimal(depth);
    DecimalLength(depth, DEPTH_DIGITS);
  }
}
