/** The IPv6 parser accepts exactly the texts section 2.2 of RFC 4291 describes, and reads each in the one way. */
module IpGrammar {
  import opened Base
  import opened IpText

  // ----- Joined texts -----

  /** What a text is before its last piece. */
  function Stem(parts: seq<string>): string {
    if parts == [] then "" else Join(parts, ':') + ":"
  }

  lemma {:induction false} JoinLast(parts: seq<string>, last: string)
    ensures Join(parts + [last], ':') == Stem(parts) + last
  {
    if |parts| > 0 {
      JoinLast(parts[1..], last);
      assert (parts + [last])[1..] == parts[1..] + [last];
      if |parts| > 1 {
        assert Stem(parts) == parts[0] + ":" + Stem(parts[1..]);
      }
    }
  }

  lemma JoinLastTwo(parts: seq<string>)
    ensures Join(parts + ["0", "0"], ':') == Stem(parts) + "0:0"
  {
    JoinLast(parts + ["0"], "0");
    JoinLast(parts, "0");
    assert parts + ["0", "0"] == parts + ["0"] + ["0"];
  }

  predicate NoPair(s: string) {
    forall i :: 0 <= i < |s| - 1 ==> s[i] != ':' || s[i + 1] != ':'
  }

  /** Pieces of an address text: not empty, and without a colon. */
  predicate Solid(parts: seq<string>) {
    forall part :: part in parts ==> part != "" && ':' !in part
  }

  lemma {:induction false} JoinedText(parts: seq<string>)
    requires Solid(parts)
    ensures NoPair(Join(parts, ':'))
    ensures Join(parts, ':') == "" <==> parts == []
    ensures parts != [] ==> Join(parts, ':')[|Join(parts, ':')| - 1] != ':'
    ensures Pieces(Join(parts, ':')) == parts
  {
    if |parts| > 0 {
      assert parts[0] in parts;
      var text := Join(parts, ':');
      assert forall i :: 0 <= i < |parts[0]| ==> parts[0][i] in parts[0];
      SplitJoin(parts, ':');
      if |parts| > 1 {
        JoinedText(parts[1..]);
        var rest := Join(parts[1..], ':');
        assert parts[1] in parts && parts[1][0] in parts[1];
        assert text == parts[0] + ":" + rest;
      }
    }
  }

  // ----- Splitting at "::" -----

  lemma {:induction false} NoPairNoSplit(s: string)
    requires NoPair(s)
    ensures SplitPairs(s) == [s]
  {
    if s != "" {
      assert s[..Min(2, |s|)] != "::" by {
        if |s| >= 2 {
          assert s[..2] == [s[0], s[1]];
        }
      }
      assert NoPair(s[1..]);
      NoPairNoSplit(s[1..]);
      assert s == [s[0]] + s[1..];
    }
  }

  lemma {:induction false} SplitAtPair(a: string, b: string)
    requires NoPair(a) && NoPair(b) && (a != "" ==> a[|a| - 1] != ':')
    ensures SplitPairs(a + "::" + b) == [a, b]
  {
    var s := a + "::" + b;
    if a == "" {
      assert s[..2] == "::" && s[2..] == b;
      NoPairNoSplit(b);
    } else {
      assert s[..2] == [s[0], s[1]];
      assert s[1..] == a[1..] + "::" + b;
      assert NoPair(a[1..]);
      SplitAtPair(a[1..], b);
      assert a == [a[0]] + a[1..];
    }
  }

  lemma {:induction false} PairsRejoin(s: string)
    ensures |SplitPairs(s)| == 1 ==> SplitPairs(s) == [s]
    ensures |SplitPairs(s)| == 2 ==> s == SplitPairs(s)[0] + "::" + SplitPairs(s)[1]
  {
    if s == "" {
    } else if s[..Min(2, |s|)] == "::" {
      PairsRejoin(s[2..]);
      assert s == s[..2] + s[2..];
    } else {
      PairsRejoin(s[1..]);
      assert s == [s[0]] + s[1..];
    }
  }

  // ----- Bytes -----

  lemma {:induction false} BytesOfCat(a: seq<string>, b: seq<string>)
    requires forall g :: g in a + b ==> IsGroup(g)
    ensures forall g :: g in a || g in b ==> g in a + b
    ensures BytesOf(a + b) == BytesOf(a) + BytesOf(b)
  {
    if b == [] {
      assert a + b == a;
    } else {
      var front := b[..|b| - 1];
      assert (a + b)[..|a + b| - 1] == a + front;
      assert forall g :: g in a + front ==> g in a + b;
      BytesOfCat(a, front);
    }
  }

  lemma {:induction false} BytesOfZeros(n: nat)
    ensures BytesOf(seq(n, _ => "0")) == Zeros(2 * n)
  {
    if n > 0 {
      BytesOfZeros(n - 1);
      var zeros := seq(n, _ => "0");
      assert zeros[..n - 1] == seq(n - 1, _ => "0");
      assert HexValue("0") == 0 by {
        assert "0"[..0] == "";
      }
      assert Zeros(2 * n) == Zeros(2 * (n - 1)) + [0, 0];
    }
  }

  // ----- Texts without a dotted quad -----

  lemma GroupsAreSolid(groups: seq<string>)
    requires forall g :: g in groups ==> IsGroup(g)
    ensures Solid(groups)
  {
  }

  lemma ZeroIsGroup()
    ensures IsGroup("0")
  {
  }

  lemma HeadIsRead(f: Form)
    requires f.WellFormed() && f.quad.None?
    ensures ParsedHead(f.Spell()) == Some(f.Value())
  {
    hide IsGroup, HexValue, BytesOf, Join, SplitPairs, Split;
    assert f.right + f.Tail() == f.right && f.left + f.Tail() == f.left;
    assert forall g :: g in f.left || g in f.right ==> g in f.left + f.right;
    GroupsAreSolid(f.left);
    GroupsAreSolid(f.right);
    JoinedText(f.left);
    JoinedText(f.right);
    if f.gap {
      SplitAtPair(Join(f.left, ':'), Join(f.right, ':'));
      var n := 8 - |f.left| - |f.right|;
      var zeros := seq(n, _ => "0");
      ZeroIsGroup();
      BytesOfCat(f.left, zeros);
      BytesOfCat(f.left + zeros, f.right);
      BytesOfZeros(n);
      assert BytesOf(f.left + zeros + f.right) == f.Value();
    } else {
      NoPairNoSplit(Join(f.left, ':'));
      assert f.Value() == BytesOf(f.left);
    }
  }

  lemma HeadIsSpelled(head: string) returns (f: Form)
    requires ParsedHead(head).Some?
    ensures f.WellFormed() && f.quad.None? && f.Spell() == head && ParsedHead(head) == Some(f.Value())
  {
    var halves := SplitPairs(head);
    PairsRejoin(head);
    var groups := GroupsOf(head).value;
    if |halves| == 2 {
      f := Form(Pieces(halves[0]), true, Pieces(halves[1]), None);
      assert forall g :: g in f.left || g in f.right ==> g in groups;
      JoinSplit(halves[0], ':');
      JoinSplit(halves[1], ':');
      assert f.right + f.Tail() == f.right;
    } else {
      f := Form(groups, false, [], None);
      JoinSplit(head, ':');
      assert f.left + f.Tail() == f.left;
    }
    HeadIsRead(f);
  }

  // ----- Texts that end in a dotted quad -----

  predicate IsAddressChar(c: char) {
    IsHex(c) || c == ':' || c == '.'
  }

  lemma {:induction false} JoinedChars(parts: seq<string>, sep: char, ok: char -> bool)
    requires ok(sep) && forall part, c :: part in parts && c in part ==> ok(c)
    ensures forall c :: c in Join(parts, sep) ==> ok(c)
  {
    if |parts| > 1 {
      assert forall part :: part in parts[1..] ==> part in parts;
      JoinedChars(parts[1..], sep, ok);
      assert parts[0] in parts;
    } else if |parts| == 1 {
      assert parts[0] in parts;
    }
  }

  lemma QuadText(q: Quad)
    ensures '.' in DottedQuad(q)
    ensures forall c :: c in DottedQuad(q) ==> IsDigit(c) || c == '.'
  {
    var parts := [Decimal(q[0]), Decimal(q[1]), Decimal(q[2]), Decimal(q[3])];
    DecimalText(q[0]);
    DecimalText(q[1]);
    DecimalText(q[2]);
    DecimalText(q[3]);
    JoinedChars(parts, '.', c => IsDigit(c) || c == '.');
    assert DottedQuad(q)[|parts[0]|] == '.';
  }

  lemma SpelledChars(f: Form)
    requires f.WellFormed()
    ensures forall c :: c in f.Spell() ==> IsAddressChar(c)
    ensures f.quad.None? ==> '.' !in f.Spell()
    ensures f.Spell() != ""
  {
    if f.quad.Some? {
      QuadText(f.quad.value);
    }
    var ok := c => IsHex(c) || c == ':' || (f.quad.Some? && c == '.');
    assert forall g :: g in f.left || g in f.right ==> g in f.left + f.right;
    JoinedChars(f.left, ':', ok);
    JoinedChars(f.left + f.Tail(), ':', ok);
    JoinedChars(f.right + f.Tail(), ':', ok);
    assert forall c :: c in f.Spell() ==> ok(c);
    if !f.gap {
      assert |f.left + f.Tail()| > 1;
    }
  }

  /** Everything before the last piece of the text. */
  function Before(f: Form): string {
    if f.gap then Join(f.left, ':') + "::" + Stem(f.right) else Stem(f.left)
  }

  /** The text the parser looks at: the dotted quad replaced by two groups of zeros. */
  function Replaced(f: Form): Form {
    if f.gap then Form(f.left, true, f.right + ["0", "0"], None) else Form(f.left + ["0", "0"], false, [], None)
  }

  lemma ReplacedText(f: Form)
    requires f.WellFormed() && f.quad.Some?
    ensures f.Spell() == Before(f) + DottedQuad(f.quad.value)
    ensures Before(f) != "" && Before(f)[|Before(f)| - 1] == ':'
    ensures Replaced(f).Spell() == Before(f) + "0:0"
  {
    var last := if f.gap then f.right else f.left;
    JoinLast(last, DottedQuad(f.quad.value));
    JoinLastTwo(last);
    assert Replaced(f).left + [] == Replaced(f).left && Replaced(f).right + [] == Replaced(f).right;
  }

  lemma BytesWithZeros(groups: seq<string>)
    requires forall g :: g in groups ==> IsGroup(g)
    ensures forall g :: g in groups + ["0", "0"] ==> IsGroup(g)
    ensures BytesOf(groups + ["0", "0"]) == BytesOf(groups) + [0, 0, 0, 0]
  {
    ZeroIsGroup();
    BytesOfCat(groups, ["0", "0"]);
    BytesOfZeros(2);
    assert ["0", "0"] == seq(2, _ => "0");
  }

  lemma SwapTail(a: seq<Byte>, z: seq<Byte>, b: seq<Byte>, q: Quad)
    requires |a| + |z| + |b| == 12
    ensures (a + z + (b + [0, 0, 0, 0]))[..12] + q == a + z + (b + q)
  {
    assert a + z + (b + [0, 0, 0, 0]) == a + z + b + [0, 0, 0, 0];
  }

  lemma ReplacedIsWellFormed(f: Form)
    requires f.WellFormed() && f.quad.Some?
    ensures Replaced(f).WellFormed() && Replaced(f).quad.None?
  {
    hide IsGroup;
    ZeroIsGroup();
    assert forall g :: g in f.left || g in f.right ==> g in f.left + f.right;
  }

  lemma ReplacedInGap(f: Form)
    requires f.WellFormed() && f.quad.Some? && f.gap && Replaced(f).WellFormed()
    ensures Replaced(f).Value()[..12] + f.quad.value == f.Value()
  {
    hide IsGroup, HexValue, BytesOf;
    assert forall g :: g in f.left || g in f.right ==> g in f.left + f.right;
    BytesWithZeros(f.right);
    SwapTail(BytesOf(f.left), Zeros(12 - 2 * |f.left| - 2 * |f.right|), BytesOf(f.right), f.quad.value);
  }

  lemma ReplacedInFull(f: Form)
    requires f.WellFormed() && f.quad.Some? && !f.gap && Replaced(f).WellFormed()
    ensures Replaced(f).Value()[..12] + f.quad.value == f.Value()
  {
    hide IsGroup, HexValue, BytesOf;
    assert forall g :: g in f.left ==> g in f.left + f.right;
    BytesWithZeros(f.left);
    SwapTail(BytesOf(f.left), [], [], f.quad.value);
  }

  lemma ReplacedValue(f: Form)
    requires f.WellFormed() && f.quad.Some?
    ensures Replaced(f).WellFormed() && Replaced(f).quad.None?
    ensures Replaced(f).Value()[..12] + f.quad.value == f.Value()
  {
    hide Form.Value, Form.WellFormed;
    ReplacedIsWellFormed(f);
    if f.gap {
      ReplacedInGap(f);
    } else {
      ReplacedInFull(f);
    }
  }

  lemma LastIndexIs(before: string, after: string, c: char)
    requires before != "" && before[|before| - 1] == c && c !in after
    ensures LastIndex(before + after, c) == |before| - 1
  {
    assert (before + after)[|before| - 1] == c;
    assert forall j :: |before| <= j < |before + after| ==> (before + after)[j] == after[j - |before|];
  }

  lemma QuadIsRead(f: Form)
    requires f.WellFormed() && f.quad.Some?
    ensures ParsedAddress(f.Spell()) == Some(f.Value())
  {
    hide Form.Spell, Form.Value, Form.WellFormed, ParsedQuad, ParsedHead, DottedQuad, Before, Replaced;
    var q := f.quad.value;
    var s, before := f.Spell(), Before(f);
    SpelledChars(f);
    ReplacedText(f);
    ReplacedValue(f);
    QuadText(q);
    QuadsAreCanonical(DottedQuad(q), q);
    var i := LastIndex(s, ':');
    LastIndexIs(before, DottedQuad(q), ':');
    assert s[i + 1..] == DottedQuad(q) && s[..i + 1] == before;
    HeadIsRead(Replaced(f));
  }

  lemma SplitAtGap(a: string, b: string)
    ensures Split(a + "::" + b, ':') == Split(a, ':') + [""] + Split(b, ':')
  {
    SplitCat(a, ":" + b, ':');
    SplitCat("", b, ':');
    assert a + "::" + b == a + ":" + (":" + b) && ":" + b == "" + ":" + b;
  }

  lemma ZerosJoined()
    ensures Join(["0", "0"], ':') == "0:0"
  {
  }

  lemma SolidPieces(groups: seq<string>)
    requires forall g :: g in groups ==> IsGroup(g)
    ensures groups == [] ==> Join(groups, ':') == ""
    ensures groups != [] ==> Split(Join(groups, ':'), ':') == groups
  {
    GroupsAreSolid(groups);
    JoinedText(groups);
  }

  /** Nothing between two colons still splits into one empty piece. */
  function Half(groups: seq<string>): seq<string> {
    if groups == [] then [""] else groups
  }

  lemma SpelledPieces(f: Form)
    requires f.WellFormed() && f.quad.None?
    ensures Split(f.Spell(), ':') == if f.gap then Half(f.left) + [""] + Half(f.right) else f.left
  {
    hide Join, IsGroup, Split;
    assert f.left + f.Tail() == f.left && f.right + f.Tail() == f.right;
    assert forall g :: g in f.left || g in f.right ==> g in f.left + f.right;
    SolidPieces(f.left);
    SolidPieces(f.right);
    SplitNone("", ':');
    if f.gap {
      SplitAtGap(Join(f.left, ':'), Join(f.right, ':'));
    }
  }

  lemma EndsInZeros(f: Form, before: string)
    requires f.WellFormed() && f.quad.None?
    requires before != "" && before[|before| - 1] == ':' && f.Spell() == before + "0:0"
    ensures var last := if f.gap then f.right else f.left; |last| >= 2 && last[|last| - 2..] == ["0", "0"]
  {
    hide Join, IsGroup, Split, Form.Spell;
    var front := before[..|before| - 1];
    var parts := Split(f.Spell(), ':');
    assert f.Spell() == front + ":" + "0:0";
    SplitCat(front, "0:0", ':');
    SplitJoin(["0", "0"], ':');
    ZerosJoined();
    assert parts[|parts| - 1] == "0" && parts[|parts| - 2] == "0";
    SpelledPieces(f);
  }

  lemma QuadIsSpelled(before: string, q: Quad) returns (f: Form)
    requires before != "" && before[|before| - 1] == ':' && ParsedHead(before + "0:0").Some?
    ensures f.WellFormed() && f.quad == Some(q) && f.Spell() == before + DottedQuad(q)
  {
    hide Join, IsGroup, ParsedHead, DottedQuad;
    var g := HeadIsSpelled(before + "0:0");
    EndsInZeros(g, before);
    var last := if g.gap then g.right else g.left;
    var rest := last[..|last| - 2];
    assert last == rest + ["0", "0"];
    assert forall x :: x in g.left || x in g.right ==> x in g.left + g.right;
    assert forall x :: x in rest ==> x in last;
    f := if g.gap then Form(g.left, true, rest, Some(q)) else Form(rest, false, [], Some(q));
    assert Replaced(f) == g;
    ReplacedText(f);
    assert Before(f) == (Before(f) + "0:0")[..|before|] == before;
  }

  // ----- The grammar is what is accepted -----

  /** Every way of writing an address is read, as the address it writes. */
  lemma FormsAreRead(f: Form)
    requires f.WellFormed()
    ensures ParsedAddress(f.Spell()) == Some(f.Value())
  {
    hide Form.Spell, Form.Value, Form.WellFormed, ParsedQuad, ParsedHead;
    if f.quad.Some? {
      QuadIsRead(f);
    } else {
      SpelledChars(f);
      HeadIsRead(f);
    }
  }

  /** And nothing else is. */
  lemma ReadTextsAreForms(s: string) returns (f: Form)
    requires ParsedAddress(s).Some?
    ensures f.WellFormed() && f.Spell() == s && ParsedAddress(s) == Some(f.Value())
  {
    hide Form.Spell, Form.Value, Form.WellFormed, ParsedQuad, ParsedHead, DottedQuad;
    var i := LastIndex(s, ':');
    if i != -1 && '.' in s[i + 1..] {
      var q := ParsedQuad(s[i + 1..]).value;
      QuadsAreCanonical(s[i + 1..], q);
      assert s == s[..i + 1] + s[i + 1..];
      f := QuadIsSpelled(s[..i + 1], q);
    } else {
      f := HeadIsSpelled(s);
    }
    FormsAreRead(f);
  }

  /** `parseIpv6` in one sentence: it returns `a` exactly when the text is some well-formed way of writing `a`. */
  lemma ParsedAddressIff(s: string, a: Address)
    ensures ParsedAddress(s) == Some(a) <==> exists f: Form :: f.WellFormed() && f.Spell() == s && f.Value() == a
  {
    if ParsedAddress(s) == Some(a) {
      var f := ReadTextsAreForms(s);
      assert f.WellFormed() && f.Spell() == s && f.Value() == a;
    }
    forall f: Form | f.WellFormed() && f.Spell() == s && f.Value() == a ensures ParsedAddress(s) == Some(a) {
      FormsAreRead(f);
    }
  }

  /** No text can be read in two ways. */
  lemma TextsAreUnambiguous(f: Form, g: Form)
    requires f.WellFormed() && g.WellFormed() && f.Spell() == g.Spell()
    ensures f.Value() == g.Value()
  {
    FormsAreRead(f);
    FormsAreRead(g);
  }

  lemma ReadExactlyTheForms(s: string)
    ensures forall a: Address ::
              ParsedAddress(s) == Some(a) <==> exists f: Form :: f.WellFormed() && f.Spell() == s && f.Value() == a
  {
    forall a: Address
      ensures ParsedAddress(s) == Some(a) <==> exists f: Form :: f.WellFormed() && f.Spell() == s && f.Value() == a
    {
      ParsedAddressIff(s, a);
    }
  }

  method ParseIpv6(input: string) returns (r: Option<Address>)
    ensures r == ParsedAddress(input)
    ensures forall a: Address ::
              r == Some(a) <==> exists f: Form :: f.WellFormed() && f.Spell() == input && f.Value() == a
  {
    hide ParsedQuad, SplitPairs, Split, HexValue, IsHex, DottedQuad, Form.WellFormed, Form.Spell, Form.Value;
    ReadExactlyTheForms(input);
    if '%' in input || |input| == 0 {
      return None;
    }
    var head := input;
    var embeddedV4: Option<Quad> := None;
    var lastColon := LastIndex(head, ':');
    if lastColon != -1 && '.' in head[lastColon + 1..] {
      embeddedV4 := ParseIpv4(head[lastColon + 1..]);
      if embeddedV4.None? {
        return None;
      }
      head := head[..lastColon + 1] + "0:0";
    }
    var groups := GroupsOf(head);
    if groups.None? {
      return None;
    }
    var bytes: seq<Byte> := [];
    for k := 0 to |groups.value|
      invariant forall g :: g in groups.value[..k] ==> IsGroup(g)
      invariant bytes == BytesOf(groups.value[..k])
    {
      var group := groups.value[k];
      if !IsGroup(group) {
        assert group in groups.value;
        return None;
      }
      HexBound(group);
      var value := HexValue(group);
      assert groups.value[..k + 1][..k] == groups.value[..k];
      bytes := bytes + [value / 256 % 256, value % 256];
    }
    assert groups.value[..|groups.value|] == groups.value;
    if embeddedV4.Some? {
      bytes := bytes[..12] + embeddedV4.value;
    }
    r := Some(bytes);
  }

  // ----- Printing -----

  function HexChar(n: nat): char
    requires n < 16
  {
    "0123456789abcdef"[n]
  }

  /** The shortest way of writing a group. */
  function Hex(n: nat): string
    requires n < 65536
  {
    if n < 16 then [HexChar(n)] else Hex(n / 16) + [HexChar(n % 16)]
  }

  lemma HexCharRoundTrip(n: nat)
    requires n < 16
    ensures IsHex(HexChar(n)) && HexDigit(HexChar(n)) == n
  {
    if n < 10 {
      assert HexChar(n) == "0123456789"[n];
      DigitRoundTrip(n);
    } else {
      assert n == 10 || n == 11 || n == 12 || n == 13 || n == 14 || n == 15;
    }
  }

  lemma {:induction false} HexRoundTrip(n: nat, width: nat)
    requires n < 65536 && width <= 4
    requires if width == 1 then n < 16 else if width == 2 then n < 256 else if width == 3 then n < 4096 else width == 4
    ensures IsGroup(Hex(n)) && |Hex(n)| <= width && HexValue(Hex(n)) == n
  {
    HexCharRoundTrip(n % 16);
    if n < 16 {
      assert Hex(n)[..0] == "";
    } else {
      HexRoundTrip(n / 16, width - 1);
      assert Hex(n)[..|Hex(n)| - 1] == Hex(n / 16);
    }
  }

  function Word(a: Address, k: nat): nat
    requires k < 8
  {
    var high: int := a[2 * k];
    256 * high + a[2 * k + 1]
  }

  /** Eight groups that write the eight words of `a`, in whatever case and with whatever leading zeros. */
  predicate WritesWords(groups: seq<string>, a: Address) {
    && |groups| == 8
    && forall k :: 0 <= k < 8 ==> IsGroup(groups[k]) && HexValue(groups[k]) == Word(a, k)
  }

  /** The groups `i` to `j` left out; with `quad`, the last two written as a dotted quad. */
  function Shortened(groups: seq<string>, i: nat, j: nat, quad: bool, a: Address): Form
    requires |groups| == 8 && i <= j <= (if quad then 6 else 8)
  {
    var end := if quad then 6 else 8;
    var tail := if quad then Some(a[12..]) else None;
    if i == j then Form(groups[..end], false, [], tail) else Form(groups[..i], true, groups[j..end], tail)
  }

  lemma {:induction false} BytesOfSlice(groups: seq<string>, a: Address, i: nat, j: nat)
    requires WritesWords(groups, a) && i <= j <= 8
    ensures forall g :: g in groups[i..j] ==> IsGroup(g)
    ensures BytesOf(groups[i..j]) == a[2 * i..2 * j]
  {
    hide HexValue;
    if i < j {
      BytesOfSlice(groups, a, i, j - 1);
      assert groups[i..j][..j - i - 1] == groups[i..j - 1];
      assert HexValue(groups[j - 1]) == Word(a, j - 1);
      assert a[2 * i..2 * j] == a[2 * i..2 * (j - 1)] + [a[2 * j - 2], a[2 * j - 1]];
    }
  }

  lemma Refilled(a: Address, i: nat, j: nat, end: nat)
    requires i <= j <= end <= 8
    requires forall k :: i <= k < j ==> Word(a, k) == 0
    ensures a[..2 * i] + Zeros(2 * (j - i)) + (a[2 * j..2 * end] + a[2 * end..]) == a
  {
    forall m | 2 * i <= m < 2 * j ensures a[m] == 0 {
      assert Word(a, m / 2) == 0;
    }
    assert a == a[..2 * i] + a[2 * i..2 * j] + (a[2 * j..2 * end] + a[2 * end..]);
  }

  lemma ShortenedValue(a: Address, groups: seq<string>, i: nat, j: nat, quad: bool)
    requires WritesWords(groups, a) && i <= j <= (if quad then 6 else 8)
    requires forall k :: i <= k < j ==> Word(a, k) == 0
    ensures Shortened(groups, i, j, quad, a).WellFormed()
    ensures Shortened(groups, i, j, quad, a).Value() == a
  {
    hide IsGroup, HexValue, BytesOf, Word;
    var f := Shortened(groups, i, j, quad, a);
    var end := if quad then 6 else 8;
    var (x, y) := if i == j then (end, end) else (i, j);
    BytesOfSlice(groups, a, 0, x);
    BytesOfSlice(groups, a, y, end);
    assert groups[0..x] == f.left && groups[y..end] == f.right;
    Refilled(a, x, y, end);
    assert a[2 * y..2 * end] + (if quad then a[12..] else []) == a[2 * y..2 * end] + a[2 * end..];
  }

  /**
   * The same sixteen bytes come back from the full form, from every form with a
   * run of zero words left out, and from each of these with a dotted quad at the end.
   */
  lemma EverySpellingIsRead(a: Address, groups: seq<string>, i: nat, j: nat, quad: bool)
    requires WritesWords(groups, a) && i <= j <= (if quad then 6 else 8)
    requires forall k :: i <= k < j ==> Word(a, k) == 0
    ensures ParsedAddress(Shortened(groups, i, j, quad, a).Spell()) == Some(a)
  {
    ShortenedValue(a, groups, i, j, quad);
    FormsAreRead(Shortened(groups, i, j, quad, a));
  }

  function Printed(a: Address): string {
    Join(seq(8, k requires 0 <= k < 8 => Hex(Word(a, k))), ':')
  }

  /** Printing all eight words and parsing gives the address back. */
  lemma PrintedIsRead(a: Address)
    ensures ParsedAddress(Printed(a)) == Some(a)
  {
    var groups := seq(8, k requires 0 <= k < 8 => Hex(Word(a, k)));
    forall k | 0 <= k < 8 ensures IsGroup(groups[k]) && HexValue(groups[k]) == Word(a, k) {
      HexRoundTrip(Word(a, k), 4);
    }
    EverySpellingIsRead(a, groups, 0, 0, false);
    assert groups[..8] + [] == groups;
  }
}
