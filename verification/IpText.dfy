/** Strict address text (packages/gitlab-client/src/ip.ts): dotted quads, and section 2.2 of RFC 4291. */
module IpText {
  import opened Base

  type Byte = b: int | 0 <= b < 256
  type Quad = q: seq<Byte> | |q| == 4 witness [0, 0, 0, 0]
  type Address = a: seq<Byte> | |a| == 16 witness seq(16, _ => 0)

  // ----- Splitting and joining -----

  /** Puts a character in front of the first part. */
  function Onto(c: char, parts: seq<string>): seq<string>
    requires parts != []
  {
    [[c] + parts[0]] + parts[1..]
  }

  function Split(s: string, sep: char): (parts: seq<string>)
    ensures |parts| >= 1
  {
    if s == "" then [""]
    else
      var rest := Split(s[1..], sep);
      if s[0] == sep then [""] + rest else Onto(s[0], rest)
  }

  function Join(parts: seq<string>, sep: char): string {
    if parts == [] then ""
    else if |parts| == 1 then parts[0]
    else parts[0] + [sep] + Join(parts[1..], sep)
  }

  lemma OntoJoin(c: char, parts: seq<string>, sep: char)
    requires parts != [] && c != sep && forall part :: part in parts ==> sep !in part
    ensures Join(Onto(c, parts), sep) == [c] + Join(parts, sep)
    ensures forall part :: part in Onto(c, parts) ==> sep !in part
  {
    assert Onto(c, parts)[1..] == parts[1..];
    if |parts| > 1 {
      assert [c] + (parts[0] + [sep] + Join(parts[1..], sep)) == [c] + parts[0] + [sep] + Join(parts[1..], sep);
    }
  }

  lemma {:induction false} JoinSplit(s: string, sep: char)
    ensures Join(Split(s, sep), sep) == s
    ensures forall part :: part in Split(s, sep) ==> sep !in part
  {
    hide Onto;
    if s != "" {
      var rest := Split(s[1..], sep);
      JoinSplit(s[1..], sep);
      if s[0] == sep {
        assert ([""] + rest)[1..] == rest;
      } else {
        OntoJoin(s[0], rest, sep);
      }
    }
  }

  lemma {:induction false} SplitNone(s: string, sep: char)
    requires sep !in s
    ensures Split(s, sep) == [s]
  {
    if s != "" {
      SplitNone(s[1..], sep);
      assert s == [s[0]] + s[1..] && s[0] in s;
    }
  }

  lemma OntoCat(c: char, a: seq<string>, b: seq<string>)
    requires a != []
    ensures Onto(c, a + b) == Onto(c, a) + b
  {
  }

  lemma {:induction false} SplitCat(a: string, b: string, sep: char)
    ensures Split(a + [sep] + b, sep) == Split(a, sep) + Split(b, sep)
  {
    hide Onto;
    var whole := a + [sep] + b;
    if a == "" {
      assert whole[1..] == b;
    } else {
      SplitCat(a[1..], b, sep);
      assert whole[1..] == a[1..] + [sep] + b && whole[0] == a[0];
      OntoCat(a[0], Split(a[1..], sep), Split(b, sep));
    }
  }

  lemma {:induction false} SplitJoin(parts: seq<string>, sep: char)
    requires parts != [] && forall part :: part in parts ==> sep !in part
    ensures Split(Join(parts, sep), sep) == parts
  {
    SplitNone(parts[0], sep);
    if |parts| > 1 {
      SplitJoin(parts[1..], sep);
      SplitCat(parts[0], Join(parts[1..], sep), sep);
      assert [parts[0]] + parts[1..] == parts;
    }
  }

  // ----- IPv4 -----

  predicate IsDigit(c: char) {
    '0' <= c <= '9'
  }

  function DigitValue(c: char): (n: nat)
    requires IsDigit(c)
    ensures n < 10
  {
    c as int - '0' as int
  }

  function DigitOf(n: nat): char
    requires n < 10
  {
    "0123456789"[n]
  }

  /** A number as it is written: no leading zeros. */
  function Decimal(n: Byte): string {
    if n < 10 then [DigitOf(n)]
    else if n < 100 then [DigitOf(n / 10), DigitOf(n % 10)]
    else [DigitOf(n / 100), DigitOf(n / 10 % 10), DigitOf(n % 10)]
  }

  function DottedQuad(q: Quad): string {
    Join([Decimal(q[0]), Decimal(q[1]), Decimal(q[2]), Decimal(q[3])], '.')
  }

  function Number(part: string): nat
    requires forall c :: c in part ==> IsDigit(c)
  {
    if part == "" then 0
    else 10 * Number(part[..|part| - 1]) + DigitValue(part[|part| - 1])
  }

  /** What one part of a dotted quad is accepted as. */
  function Octet(part: string): Option<Byte> {
    if !(1 <= |part| <= 3 && forall c :: c in part ==> IsDigit(c)) then None
    else if |part| > 1 && part[0] == '0' then None
    else if Number(part) > 255 then None
    else Some(Number(part))
  }

  function ParsedQuad(s: string): Option<Quad> {
    var parts := Split(s, '.');
    if |parts| == 4 && Octet(parts[0]).Some? && Octet(parts[1]).Some? && Octet(parts[2]).Some? && Octet(parts[3]).Some?
    then Some([Octet(parts[0]).value, Octet(parts[1]).value, Octet(parts[2]).value, Octet(parts[3]).value])
    else None
  }

  lemma DigitRoundTrip(n: nat)
    requires n < 10
    ensures IsDigit(DigitOf(n)) && DigitValue(DigitOf(n)) == n
  {
    assert n == 0 || n == 1 || n == 2 || n == 3 || n == 4 || n == 5 || n == 6 || n == 7 || n == 8 || n == 9;
  }

  lemma DigitValues(c: char)
    requires IsDigit(c)
    ensures DigitOf(DigitValue(c)) == c
  {
    DigitRoundTrip(DigitValue(c));
  }

  lemma NumberOf(part: string)
    requires 1 <= |part| <= 3 && forall c :: c in part ==> IsDigit(c)
    ensures |part| == 1 ==> Number(part) == DigitValue(part[0])
    ensures |part| == 2 ==> Number(part) == 10 * DigitValue(part[0]) + DigitValue(part[1])
    ensures |part| == 3 ==> Number(part) == 100 * DigitValue(part[0]) + 10 * DigitValue(part[1])
                                            + DigitValue(part[2])
  {
    var a := part[..1];
    assert a[..0] == "" && Number(a) == DigitValue(part[0]);
    if |part| >= 2 {
      assert part[..2][..1] == a && Number(part[..2]) == 10 * Number(a) + DigitValue(part[1]);
    }
    assert part[..|part|] == part;
  }

  lemma DecimalIsAccepted(n: Byte)
    ensures Octet(Decimal(n)) == Some(n)
  {
    hide Number, DigitOf;
    DigitRoundTrip(n % 10);
    DigitRoundTrip(n / 10 % 10);
    DigitRoundTrip(n / 100);
    DigitRoundTrip(0);
    var text := Decimal(n);
    if n < 10 {
      NumberOf(text);
    } else if n < 100 {
      NumberOf(text);
    } else {
      NumberOf(text);
    }
  }

  lemma DigitsOfNumber(a: nat, b: nat, c: nat)
    requires a < 10 && b < 10 && c < 10
    ensures var n := 100 * a + 10 * b + c; n / 100 == a && n / 10 == 10 * a + b && n / 10 % 10 == b && n % 10 == c
  {
    assert (100 * a + 10 * b + c) / 10 == 10 * a + b;
  }

  lemma AcceptedIsDecimal(part: string)
    requires Octet(part).Some?
    ensures part == Decimal(Octet(part).value)
  {
    hide Number, DigitOf;
    NumberOf(part);
    DigitValues(part[0]);
    if |part| == 1 {
      assert part == [part[0]];
    } else if |part| == 2 {
      DigitValues(part[1]);
      DigitsOfNumber(0, DigitValue(part[0]), DigitValue(part[1]));
      assert part == [part[0], part[1]];
    } else {
      DigitValues(part[1]);
      DigitValues(part[2]);
      DigitsOfNumber(DigitValue(part[0]), DigitValue(part[1]), DigitValue(part[2]));
      assert part == [part[0], part[1], part[2]];
    }
  }

  /** An octet is accepted exactly when it is written the one way its number is. */
  lemma OctetIsDecimal(part: string, n: Byte)
    ensures Octet(part) == Some(n) <==> part == Decimal(n)
  {
    DecimalIsAccepted(n);
    if Octet(part).Some? {
      AcceptedIsDecimal(part);
    }
  }

  lemma DecimalText(n: Byte)
    ensures 1 <= |Decimal(n)| <= 3 && forall c :: c in Decimal(n) ==> IsDigit(c)
  {
    OctetIsDecimal(Decimal(n), n);
  }

  /** `parseIpv4` accepts exactly the dotted quads printed without leading zeros, and gives back what was printed. */
  lemma QuadsAreCanonical(s: string, q: Quad)
    ensures ParsedQuad(s) == Some(q) <==> s == DottedQuad(q)
  {
    hide Octet, Decimal, Split, Join;
    var printed := [Decimal(q[0]), Decimal(q[1]), Decimal(q[2]), Decimal(q[3])];
    var parts := Split(s, '.');
    forall k | 0 <= k < 4
      ensures '.' !in printed[k] && (|parts| == 4 ==> (Octet(parts[k]) == Some(q[k]) <==> parts[k] == printed[k]))
    {
      DecimalText(q[k]);
      if |parts| == 4 {
        OctetIsDecimal(parts[k], q[k]);
      }
    }
    if s == DottedQuad(q) {
      SplitJoin(printed, '.');
      assert q == [q[0], q[1], q[2], q[3]];
    }
    if ParsedQuad(s) == Some(q) {
      assert parts == printed;
      JoinSplit(s, '.');
    }
  }

  method ParseIpv4(input: string) returns (r: Option<Quad>)
    ensures r == ParsedQuad(input)
    ensures forall q: Quad :: r == Some(q) <==> input == DottedQuad(q)
  {
    forall q: Quad ensures ParsedQuad(input) == Some(q) <==> input == DottedQuad(q) {
      QuadsAreCanonical(input, q);
    }
    var parts := Split(input, '.');
    if |parts| != 4 {
      return None;
    }
    var octets: seq<Byte> := [];
    for k := 0 to |parts|
      invariant |octets| == k
      invariant forall i :: 0 <= i < k ==> Octet(parts[i]) == Some(octets[i])
    {
      var part := parts[k];
      if !(1 <= |part| <= 3 && forall c :: c in part ==> IsDigit(c)) {
        return None;
      }
      if |part| > 1 && part[0] == '0' {
        return None;
      }
      var value := Number(part);
      if value > 255 {
        return None;
      }
      octets := octets + [value];
    }
    r := Some(octets);
  }

  // ----- IPv6: the grammar -----

  predicate IsHex(c: char) {
    IsDigit(c) || 'a' <= c <= 'f' || 'A' <= c <= 'F'
  }

  function HexDigit(c: char): (n: nat)
    requires IsHex(c)
    ensures n < 16
  {
    if IsDigit(c) then DigitValue(c)
    else if 'a' <= c <= 'f' then c as int - 'a' as int + 10
    else c as int - 'A' as int + 10
  }

  predicate IsGroup(g: string) {
    1 <= |g| <= 4 && forall c :: c in g ==> IsHex(c)
  }

  function HexValue(g: string): nat
    requires forall c :: c in g ==> IsHex(c)
  {
    if g == "" then 0 else 16 * HexValue(g[..|g| - 1]) + HexDigit(g[|g| - 1])
  }

  lemma HexBound(g: string)
    requires IsGroup(g)
    ensures HexValue(g) < 65536
  {
    assert HexValue(g[..1]) < 16 by {
      assert g[..1][..0] == "";
    }
    if |g| >= 2 {
      assert g[..2][..1] == g[..1] && HexValue(g[..2]) < 256;
    }
    if |g| >= 3 {
      assert g[..3][..2] == g[..2] && HexValue(g[..3]) < 4096;
    }
    assert g[..|g|] == g;
  }

  /** The two bytes of each group, in order. */
  function BytesOf(groups: seq<string>): (bytes: seq<Byte>)
    requires forall g :: g in groups ==> IsGroup(g)
    ensures |bytes| == 2 * |groups|
  {
    if groups == [] then []
    else
      var g := groups[|groups| - 1];
      HexBound(g);
      BytesOf(groups[..|groups| - 1]) + [HexValue(g) / 256, HexValue(g) % 256]
  }

  function Zeros(n: nat): seq<Byte> {
    seq(n, _ => 0)
  }

  /** One way of writing an address: groups, perhaps a `::` for the zeros left out, perhaps a dotted quad at the end. */
  datatype Form = Form(left: seq<string>, gap: bool, right: seq<string>, quad: Option<Quad>) {
    function Tail(): seq<string> {
      if quad.Some? then [DottedQuad(quad.value)] else []
    }

    predicate WellFormed() {
      && (forall g :: g in left + right ==> IsGroup(g))
      && (if gap then |left| + |right| + 2 * |Tail()| <= 7 else right == [] && |left| + 2 * |Tail()| == 8)
    }

    function Spell(): string {
      if gap then Join(left, ':') + "::" + Join(right + Tail(), ':') else Join(left + Tail(), ':')
    }

    function Low(): seq<Byte>
      requires WellFormed()
    {
      BytesOf(right) + (if quad.Some? then quad.value else [])
    }

    function Value(): Address
      requires WellFormed()
    {
      BytesOf(left) + Zeros(16 - 2 * |left| - |Low()|) + Low()
    }
  }

  // ----- IPv6: the parser -----

  /** `s.split("::")`: matches do not overlap and are taken from the left. */
  function SplitPairs(s: string): (halves: seq<string>)
    ensures |halves| >= 1
  {
    if s == "" then [""]
    else if s[..Min(2, |s|)] == "::" then [""] + SplitPairs(s[2..])
    else
      var rest := SplitPairs(s[1..]);
      [[s[0]] + rest[0]] + rest[1..]
  }

  function LastIndex(s: string, c: char): (i: int)
    ensures -1 <= i < |s|
    ensures i >= 0 ==> s[i] == c
    ensures forall j :: i < j < |s| ==> s[j] != c
  {
    if s == "" then -1
    else if s[|s| - 1] == c then |s| - 1
    else LastIndex(s[..|s| - 1], c)
  }

  function Pieces(half: string): seq<string> {
    if half == "" then [] else Split(half, ':')
  }

  /** The groups of a text without a dotted quad, its `::` filled in; there must be eight. */
  function GroupsOf(head: string): Option<seq<string>> {
    var halves := SplitPairs(head);
    if |halves| > 2 then None
    else if |halves| == 2 then
      var (left, right) := (Pieces(halves[0]), Pieces(halves[1]));
      if |left| + |right| > 7 then None
      else Some(left + seq(8 - |left| - |right|, _ => "0") + right)
    else if |Split(head, ':')| == 8 then Some(Split(head, ':'))
    else None
  }

  function ParsedHead(head: string): Option<Address> {
    match GroupsOf(head)
    case None => None
    case Some(groups) => if forall g :: g in groups ==> IsGroup(g) then Some(BytesOf(groups)) else None
  }

  function ParsedAddress(s: string): Option<Address> {
    if '%' in s || s == "" then None
    else
      var i := LastIndex(s, ':');
      if i != -1 && '.' in s[i + 1..] then
        match ParsedQuad(s[i + 1..])
        case None => None
        case Some(q) =>
          match ParsedHead(s[..i + 1] + "0:0")
          case None => None
          case Some(bytes) => Some(bytes[..12] + q)
      else ParsedHead(s)
  }
}
