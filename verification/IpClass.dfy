/** What an address is, whatever its spelling (packages/gitlab-client/src/ip.ts). */
module IpClass {
  import opened Base
  import opened IpText
  import opened IpGrammar

  datatype Category = Public | Private | Loopback | LinkLocal | Metadata | Unspecified | Multicast | Reserved | Unknown

  datatype Class = Class(category: Category, family: nat, normalized: string)

  const UNKNOWN := Class(Unknown, 0, "")

  function ClassifyIpv4(q: Quad): Category {
    var (a, b, c, d) := (q[0], q[1], q[2], q[3]);
    if a == 169 && b == 254 && c == 169 && d == 254 then Metadata
    else if a == 100 && b == 100 && c == 100 && d == 200 then Metadata
    else if a == 127 then Loopback
    else if a == 0 then Unspecified
    else if a == 169 && b == 254 then LinkLocal
    else if a == 10 then Private
    else if a == 172 && b >= 16 && b <= 31 then Private
    else if a == 192 && b == 168 then Private
    else if a == 100 && b >= 64 && b <= 127 then Private
    else if a >= 224 && a <= 239 then Multicast
    else if a == 192 && b == 0 && c == 0 then Reserved
    else if a == 192 && b == 0 && c == 2 then Reserved
    else if a == 198 && (b == 18 || b == 19) then Reserved
    else if a == 198 && b == 51 && c == 100 then Reserved
    else if a == 203 && b == 0 && c == 113 then Reserved
    else if a >= 240 then Reserved
    else Public
  }

  function ClassifyIpv6(a: Address): Category {
    var (b0, b1) := (a[0], a[1]);
    if forall k :: 0 <= k < 16 ==> a[k] == 0 then Unspecified
    else if (forall k :: 0 <= k < 15 ==> a[k] == 0) && a[15] == 1 then Loopback
    else if b0 == 0xfd && b1 == 0 && a[2] == 0x0e && a[3] == 0xc2
            && (forall k :: 4 <= k < 14 ==> a[k] == 0) && a[14] == 2 && a[15] == 0x54
    then Metadata
    else if b0 == 0xff then Multicast
    else if b0 == 0xfe && (b1 as bv8) & 0xc0 == 0x80 then LinkLocal
    else if (b0 as bv8) & 0xfe == 0xfc then Private
    else if b0 == 0x20 && b1 == 1 && a[2] == 0x0d && a[3] == 0xb8 then Reserved
    else if b0 == 0x20 && b1 == 2 then Reserved
    else if b0 == 0x20 && b1 == 1 && a[2] == 0 && a[3] == 0 then Reserved
    else Public
  }

  // ----- The registry of special-purpose blocks -----

  /** The addresses whose first `bits` bits are those of `prefix`. */
  datatype Block = Block(prefix: seq<Byte>, bits: nat, category: Category) {
    predicate Contains(a: seq<Byte>)
      requires |a| >= 4 && bits <= 8 * |prefix| && |prefix| <= |a|
    {
      && (forall k :: 0 <= k < bits / 8 ==> a[k] == prefix[k])
      && (bits % 8 != 0 ==> a[bits / 8] / PowerOfTwo(8 - bits % 8) == prefix[bits / 8] / PowerOfTwo(8 - bits % 8))
    }
  }

  const BLOCKS4: seq<Block> := [
    Block([169, 254, 169, 254], 32, Metadata),
    Block([100, 100, 100, 200], 32, Metadata),
    Block([127], 8, Loopback),
    Block([0], 8, Unspecified),
    Block([169, 254], 16, LinkLocal),
    Block([10], 8, Private),
    Block([172, 16], 12, Private),
    Block([192, 168], 16, Private),
    Block([100, 64], 10, Private),
    Block([224], 4, Multicast),
    Block([192, 0, 0], 24, Reserved),
    Block([192, 0, 2], 24, Reserved),
    Block([198, 18], 15, Reserved),
    Block([198, 51, 100], 24, Reserved),
    Block([203, 0, 113], 24, Reserved),
    Block([240], 4, Reserved)
  ]

  const BLOCKS6: seq<Block> := [
    Block([0, 0, 0, 0, 0, 0, 0, 0, 0, 0, 0, 0, 0, 0, 0, 0], 128, Unspecified),
    Block([0, 0, 0, 0, 0, 0, 0, 0, 0, 0, 0, 0, 0, 0, 0, 1], 128, Loopback),
    Block([0xfd, 0, 0x0e, 0xc2, 0, 0, 0, 0, 0, 0, 0, 0, 0, 0, 2, 0x54], 128, Metadata),
    Block([0xff], 8, Multicast),
    Block([0xfe, 0x80], 10, LinkLocal),
    Block([0xfc], 7, Private),
    Block([0x20, 1, 0x0d, 0xb8], 32, Reserved),
    Block([0x20, 2], 16, Reserved),
    Block([0x20, 1, 0, 0], 32, Reserved)
  ]

  predicate Fits(blocks: seq<Block>, a: seq<Byte>) {
    |a| >= 4 && forall m :: 0 <= m < |blocks| ==> blocks[m].bits <= 8 * |blocks[m].prefix| && |blocks[m].prefix| <= |a|
  }

  /** The category of the longest block that contains the address; public when none does. */
  predicate LongestMatch(blocks: seq<Block>, a: seq<Byte>, category: Category)
    requires Fits(blocks, a)
  {
    if forall m :: 0 <= m < |blocks| ==> !blocks[m].Contains(a) then category == Public
    else exists m :: 0 <= m < |blocks| && blocks[m].Contains(a) && blocks[m].category == category
                  && forall n :: 0 <= n < |blocks| && blocks[n].Contains(a) ==> blocks[n].bits <= blocks[m].bits
  }

  /** Where going down the list stops. */
  function FirstBlock(blocks: seq<Block>, a: seq<Byte>, from: nat): (m: nat)
    requires Fits(blocks, a) && from <= |blocks|
    ensures from <= m <= |blocks|
    ensures m < |blocks| ==> blocks[m].Contains(a)
    ensures forall n :: from <= n < m ==> !blocks[n].Contains(a)
    decreases |blocks| - from
  {
    if from == |blocks| || blocks[from].Contains(a) then from else FirstBlock(blocks, a, from + 1)
  }

  /** If the earlier of two blocks that share the address is always the longer, the first match is a longest one. */
  lemma FirstIsLongest(blocks: seq<Block>, a: seq<Byte>, category: Category)
    requires Fits(blocks, a)
    requires forall m, n :: 0 <= m < n < |blocks| && blocks[m].Contains(a) && blocks[n].Contains(a) ==>
      blocks[n].bits < blocks[m].bits
    requires var m := FirstBlock(blocks, a, 0); category == if m == |blocks| then Public else blocks[m].category
    ensures forall c :: LongestMatch(blocks, a, c) <==> c == category
  {
    hide Block.Contains;
    var m := FirstBlock(blocks, a, 0);
    if m < |blocks| {
      assert forall n :: 0 <= n < |blocks| && blocks[n].Contains(a) ==> n == m || blocks[n].bits < blocks[m].bits;
    }
  }

  lemma Weights()
    ensures PowerOfTwo(1) == 2 && PowerOfTwo(4) == 16 && PowerOfTwo(6) == 64
  {
    assert PowerOfTwo(2) == 4 && PowerOfTwo(3) == 8 && PowerOfTwo(5) == 32;
  }

  lemma MaskTen(b: Byte)
    ensures (b as bv8) & 0xc0 == 0x80 <==> b / 64 == 2
  {
  }

  lemma MaskSeven(b: Byte)
    ensures (b as bv8) & 0xfe == 0xfc <==> b / 2 == 126
  {
  }

  /** Membership in each block, read off the octets. */
  predicate InBlock4(q: Quad, m: nat) {
    match m
    case 0 => q[0] == 169 && q[1] == 254 && q[2] == 169 && q[3] == 254
    case 1 => q[0] == 100 && q[1] == 100 && q[2] == 100 && q[3] == 200
    case 2 => q[0] == 127
    case 3 => q[0] == 0
    case 4 => q[0] == 169 && q[1] == 254
    case 5 => q[0] == 10
    case 6 => q[0] == 172 && 16 <= q[1] <= 31
    case 7 => q[0] == 192 && q[1] == 168
    case 8 => q[0] == 100 && 64 <= q[1] <= 127
    case 9 => 224 <= q[0] <= 239
    case 10 => q[0] == 192 && q[1] == 0 && q[2] == 0
    case 11 => q[0] == 192 && q[1] == 0 && q[2] == 2
    case 12 => q[0] == 198 && 18 <= q[1] <= 19
    case 13 => q[0] == 198 && q[1] == 51 && q[2] == 100
    case 14 => q[0] == 203 && q[1] == 0 && q[2] == 113
    case _ => 240 <= q[0]
  }

  lemma FirstBlocks4(q: Quad, m: nat)
    requires m < 8
    ensures BLOCKS4[m].bits <= 8 * |BLOCKS4[m].prefix| && |BLOCKS4[m].prefix| <= |q|
    ensures BLOCKS4[m].Contains(q) <==> InBlock4(q, m)
  {
    Weights();
  }

  lemma LastBlocks4(q: Quad, m: nat)
    requires 8 <= m < 16
    ensures BLOCKS4[m].bits <= 8 * |BLOCKS4[m].prefix| && |BLOCKS4[m].prefix| <= |q|
    ensures BLOCKS4[m].Contains(q) <==> InBlock4(q, m)
  {
    Weights();
  }

  lemma Blocks4(q: Quad, m: nat)
    requires m < |BLOCKS4|
    ensures Fits(BLOCKS4, q)
    ensures BLOCKS4[m].Contains(q) <==> InBlock4(q, m)
  {
    hide Block.Contains, InBlock4;
    if m < 8 {
      FirstBlocks4(q, m);
    } else {
      LastBlocks4(q, m);
    }
  }

  /** Two blocks share an address only if one lies inside the other, and the longer stands first in the list. */
  lemma Nested4(q: Quad, m: nat, n: nat)
    requires m < n < |BLOCKS4| && InBlock4(q, m) && InBlock4(q, n)
    ensures (m, n) == (0, 4) || (m, n) == (1, 8)
  {
  }

  /** The checks go down the list. */
  lemma ChecksInOrder4(q: Quad, m: nat)
    requires m <= 16 && (m < 16 ==> InBlock4(q, m)) && forall n :: 0 <= n < m ==> !InBlock4(q, n)
    ensures ClassifyIpv4(q) == if m == 16 then Public else BLOCKS4[m].category
  {
    var seen := [InBlock4(q, 0), InBlock4(q, 1), InBlock4(q, 2), InBlock4(q, 3), InBlock4(q, 4), InBlock4(q, 5),
                 InBlock4(q, 6), InBlock4(q, 7), InBlock4(q, 8), InBlock4(q, 9), InBlock4(q, 10), InBlock4(q, 11),
                 InBlock4(q, 12), InBlock4(q, 13), InBlock4(q, 14), InBlock4(q, 15)];
  }

  /** `classifyIpv4` is a longest-prefix lookup in the registry, whatever the order of its checks. */
  lemma Ipv4MatchesLongest(q: Quad)
    ensures Fits(BLOCKS4, q)
    ensures forall c :: LongestMatch(BLOCKS4, q, c) <==> c == ClassifyIpv4(q)
  {
    hide Block.Contains, InBlock4, ClassifyIpv4, LongestMatch;
    forall n | 0 <= n < |BLOCKS4| ensures Fits(BLOCKS4, q) && (BLOCKS4[n].Contains(q) <==> InBlock4(q, n)) {
      Blocks4(q, n);
    }
    ChecksInOrder4(q, FirstBlock(BLOCKS4, q, 0));
    forall m, n | 0 <= m < n < |BLOCKS4| && BLOCKS4[m].Contains(q) && BLOCKS4[n].Contains(q)
      ensures BLOCKS4[n].bits < BLOCKS4[m].bits
    {
      Nested4(q, m, n);
    }
    FirstIsLongest(BLOCKS4, q, ClassifyIpv4(q));
  }

  predicate InBlock6(a: Address, m: nat) {
    match m
    case 0 => forall k :: 0 <= k < 16 ==> a[k] == 0
    case 1 => (forall k :: 0 <= k < 15 ==> a[k] == 0) && a[15] == 1
    case 2 =>
      a[0] == 0xfd && a[1] == 0 && a[2] == 0x0e && a[3] == 0xc2
      && (forall k :: 4 <= k < 14 ==> a[k] == 0) && a[14] == 2 && a[15] == 0x54
    case 3 => a[0] == 0xff
    case 4 => a[0] == 0xfe && a[1] / 64 == 2
    case 5 => a[0] / 2 == 126
    case 6 => a[0] == 0x20 && a[1] == 1 && a[2] == 0x0d && a[3] == 0xb8
    case 7 => a[0] == 0x20 && a[1] == 2
    case _ => a[0] == 0x20 && a[1] == 1 && a[2] == 0 && a[3] == 0
  }

  lemma WholeBlocks6(a: Address, m: nat)
    requires m < 3
    ensures BLOCKS6[m].bits <= 8 * |BLOCKS6[m].prefix| && |BLOCKS6[m].prefix| <= |a|
    ensures BLOCKS6[m].Contains(a) <==> InBlock6(a, m)
  {
    var prefix := BLOCKS6[m].prefix;
    forall k | 4 <= k < 14 ensures prefix[k] == 0 {
    }
  }

  lemma WideBlocks6(a: Address, m: nat)
    requires 3 <= m < 9
    ensures BLOCKS6[m].bits <= 8 * |BLOCKS6[m].prefix| && |BLOCKS6[m].prefix| <= |a|
    ensures BLOCKS6[m].Contains(a) <==> InBlock6(a, m)
  {
    Weights();
  }

  lemma Blocks6(a: Address, m: nat)
    requires m < |BLOCKS6|
    ensures Fits(BLOCKS6, a)
    ensures BLOCKS6[m].Contains(a) <==> InBlock6(a, m)
  {
    hide Block.Contains, InBlock6;
    if m < 3 {
      WholeBlocks6(a, m);
    } else {
      WideBlocks6(a, m);
    }
  }

  lemma ChecksInOrder6(a: Address, m: nat)
    requires m <= 9 && (m < 9 ==> InBlock6(a, m)) && forall n :: 0 <= n < m ==> !InBlock6(a, n)
    ensures ClassifyIpv6(a) == if m == 9 then Public else BLOCKS6[m].category
  {
    MaskTen(a[1]);
    MaskSeven(a[0]);
    var seen := [InBlock6(a, 0), InBlock6(a, 1), InBlock6(a, 2), InBlock6(a, 3), InBlock6(a, 4), InBlock6(a, 5),
                 InBlock6(a, 6), InBlock6(a, 7), InBlock6(a, 8)];
  }

  lemma Nested6(a: Address, m: nat, n: nat)
    requires m < n < |BLOCKS6| && InBlock6(a, m) && InBlock6(a, n)
    ensures (m, n) == (2, 5)
  {
  }

  /** `classifyIpv6Bytes`, bit masks and all, is a longest-prefix lookup too. */
  lemma Ipv6MatchesLongest(a: Address)
    ensures Fits(BLOCKS6, a)
    ensures forall c :: LongestMatch(BLOCKS6, a, c) <==> c == ClassifyIpv6(a)
  {
    hide Block.Contains, InBlock6, ClassifyIpv6, LongestMatch;
    forall n | 0 <= n < |BLOCKS6| ensures Fits(BLOCKS6, a) && (BLOCKS6[n].Contains(a) <==> InBlock6(a, n)) {
      Blocks6(a, n);
    }
    ChecksInOrder6(a, FirstBlock(BLOCKS6, a, 0));
    forall m, n | 0 <= m < n < |BLOCKS6| && BLOCKS6[m].Contains(a) && BLOCKS6[n].Contains(a)
      ensures BLOCKS6[n].bits < BLOCKS6[m].bits
    {
      Nested6(a, m, n);
    }
    FirstIsLongest(BLOCKS6, a, ClassifyIpv6(a));
  }

  // ----- Whole texts -----

  /** What `trim` removes. */
  predicate IsSpace(c: char) {
    || c in "\t\n\r \U{000B}\U{000C}\U{00A0}\U{1680}\U{2028}\U{2029}\U{202F}\U{205F}\U{3000}\U{FEFF}"
    || '\U{2000}' <= c <= '\U{200A}'
  }

  function TrimStart(s: string): string {
    if s != "" && IsSpace(s[0]) then TrimStart(s[1..]) else s
  }

  function TrimEnd(s: string): string {
    if s != "" && IsSpace(s[|s| - 1]) then TrimEnd(s[..|s| - 1]) else s
  }

  function Unbracketed(s: string): string {
    if |s| >= 2 && s[0] == '[' && s[|s| - 1] == ']' then s[1..|s| - 1] else s
  }

  function LowerChar(c: char): char {
    if 'A' <= c <= 'Z' then c - 'A' + 'a' else c
  }

  function Lower(s: string): string {
    seq(|s|, i requires 0 <= i < |s| => LowerChar(s[i]))
  }

  predicate IsMapped(a: Address) {
    (forall k :: 0 <= k < 10 ==> a[k] == 0) && a[10] == 0xff && a[11] == 0xff
  }

  function ClassifyBare(bare: string): Class {
    match ParsedQuad(bare)
    case Some(q) => Class(ClassifyIpv4(q), 4, DottedQuad(q))
    case None =>
      match ParsedAddress(bare)
      case None => UNKNOWN
      case Some(a) =>
        if IsMapped(a) then Class(ClassifyIpv4(a[12..]), 4, DottedQuad(a[12..]))
        else Class(ClassifyIpv6(a), 6, Lower(bare))
  }

  function Classification(input: string): Class {
    var raw := TrimEnd(TrimStart(input));
    if raw == "" then UNKNOWN else ClassifyBare(Unbracketed(raw))
  }

  method ClassifyIpAddress(input: string) returns (r: Class)
    ensures r == Classification(input)
  {
    var raw := TrimEnd(TrimStart(input));
    if |raw| == 0 {
      return UNKNOWN;
    }
    var bracketless := Unbracketed(raw);
    var v4 := ParseIpv4(bracketless);
    if v4.Some? {
      return Class(ClassifyIpv4(v4.value), 4, DottedQuad(v4.value));
    }
    var v6 := ParseIpv6(bracketless);
    if v6.None? {
      return UNKNOWN;
    }
    if IsMapped(v6.value) {
      var mapped := v6.value[12..];
      return Class(ClassifyIpv4(mapped), 4, DottedQuad(mapped));
    }
    r := Class(ClassifyIpv6(v6.value), 6, Lower(bracketless));
  }

  // ----- What surrounds the text -----

  predicate Plain(t: string) {
    t != "" && forall c :: c in t ==> IsAddressChar(c)
  }

  predicate Blank(s: string) {
    forall c :: c in s ==> IsSpace(c)
  }

  lemma {:induction false} TrimsStart(blank: string, t: string)
    requires Blank(blank) && t != "" && !IsSpace(t[0])
    ensures TrimStart(blank + t) == t
  {
    if blank == "" {
      assert blank + t == t;
    } else {
      assert blank[0] in blank && (blank + t)[1..] == blank[1..] + t;
      TrimsStart(blank[1..], t);
    }
  }

  lemma {:induction false} TrimsEnd(t: string, blank: string)
    requires Blank(blank) && t != "" && !IsSpace(t[|t| - 1])
    ensures TrimEnd(t + blank) == t
  {
    if blank == "" {
      assert t + blank == t;
    } else {
      var front := blank[..|blank| - 1];
      assert blank[|blank| - 1] in blank && (t + blank)[..|t + blank| - 1] == t + front;
      assert Blank(front);
      TrimsEnd(t, front);
    }
  }

  lemma Trims(before: string, t: string, after: string)
    requires Blank(before) && Blank(after) && t != "" && !IsSpace(t[0]) && !IsSpace(t[|t| - 1])
    ensures TrimEnd(TrimStart(before + t + after)) == t
  {
    assert before + t + after == before + (t + after);
    TrimsStart(before, t + after);
    TrimsEnd(t, after);
  }

  lemma NotSpace(c: char)
    requires IsAddressChar(c) || c == '[' || c == ']'
    ensures !IsSpace(c) && (IsAddressChar(c) ==> c != '[')
  {
  }

  lemma TrimmedThenRead(before: string, t: string, after: string)
    requires Blank(before) && Blank(after) && t != "" && !IsSpace(t[0]) && !IsSpace(t[|t| - 1])
    ensures Classification(before + t + after) == ClassifyBare(Unbracketed(t)) == Classification(t)
  {
    hide ClassifyBare, TrimStart, TrimEnd, IsSpace, Unbracketed;
    Trims(before, t, after);
    Trims("", t, "");
    assert "" + t + "" == t;
  }

  /** White space around an address, and one pair of brackets, change nothing. */
  lemma SurroundingsDoNotMatter(before: string, t: string, after: string)
    requires Blank(before) && Blank(after) && Plain(t)
    ensures Classification(before + t + after) == Classification(t)
    ensures Classification(before + ("[" + t + "]") + after) == Classification(t)
  {
    hide ClassifyBare, IsSpace, Classification, IsHex;
    assert t[0] in t && t[|t| - 1] in t;
    NotSpace(t[0]);
    NotSpace(t[|t| - 1]);
    NotSpace('[');
    NotSpace(']');
    TrimmedThenRead(before, t, after);
    var boxed := "[" + t + "]";
    TrimmedThenRead(before, boxed, after);
    assert boxed[1..|boxed| - 1] == t;
  }

  // ----- Spelling does not matter -----

  lemma PlainIsBare(t: string)
    requires Plain(t)
    ensures TrimEnd(TrimStart(t)) == t && Unbracketed(t) == t
  {
    assert t[0] in t && t[|t| - 1] in t;
    Trims("", t, "");
    assert "" + t + "" == t;
  }

  lemma QuadIsPlain(q: Quad)
    ensures Plain(DottedQuad(q)) && ParsedQuad(DottedQuad(q)) == Some(q) && ':' !in DottedQuad(q)
  {
    QuadText(q);
    QuadsAreCanonical(DottedQuad(q), q);
  }

  lemma SpelledWithColon(f: Form)
    requires f.WellFormed()
    ensures ':' in f.Spell() && Plain(f.Spell())
  {
    SpelledChars(f);
    if f.gap {
      assert f.Spell()[|Join(f.left, ':')|] == ':';
    } else {
      var parts := f.left + f.Tail();
      assert Join(parts, ':') == parts[0] + ":" + Join(parts[1..], ':');
      assert f.Spell()[|parts[0]|] == ':';
    }
  }

  /** No text is both a dotted quad and an IPv6 address. */
  lemma AddressTexts(t: string)
    requires ParsedAddress(t).Some?
    ensures Plain(t) && ParsedQuad(t).None? && ':' in t
  {
    var f := ReadTextsAreForms(t);
    SpelledWithColon(f);
    if ParsedQuad(t).Some? {
      QuadsAreCanonical(t, ParsedQuad(t).value);
      QuadIsPlain(ParsedQuad(t).value);
    }
  }

  /** Any two ways of writing one IPv6 address get the same category and family. */
  lemma SpellingDoesNotMatter(f: Form, g: Form)
    requires f.WellFormed() && g.WellFormed() && f.Value() == g.Value()
    ensures Classification(f.Spell()).category == Classification(g.Spell()).category
    ensures Classification(f.Spell()).family == Classification(g.Spell()).family
  {
    hide ParsedQuad, ParsedAddress, DottedQuad, ClassifyIpv4, ClassifyIpv6, TrimEnd, TrimStart, Form.Spell, Form.Value;
    FormsAreRead(f);
    FormsAreRead(g);
    AddressTexts(f.Spell());
    AddressTexts(g.Spell());
    PlainIsBare(f.Spell());
    PlainIsBare(g.Spell());
  }

  function Mapped(q: Quad): Address {
    [0, 0, 0, 0, 0, 0, 0, 0, 0, 0, 0xff, 0xff] + q
  }

  /** However `::ffff:q` is written, it is classified, and normalised, as `q` itself (section 2.5.5.2 of RFC 4291). */
  lemma MappedIsTheQuad(f: Form, q: Quad)
    requires f.WellFormed() && f.Value() == Mapped(q)
    ensures Classification(f.Spell()) == Classification(DottedQuad(q)) == Class(ClassifyIpv4(q), 4, DottedQuad(q))
  {
    hide ParsedQuad, ParsedAddress, DottedQuad, ClassifyIpv4, ClassifyIpv6, TrimEnd, TrimStart, Form.Spell, Form.Value;
    FormsAreRead(f);
    AddressTexts(f.Spell());
    PlainIsBare(f.Spell());
    QuadIsPlain(q);
    PlainIsBare(DottedQuad(q));
    assert Mapped(q)[12..] == q;
  }

  // ----- The normal form -----

  function LowerAll(parts: seq<string>): (lowered: seq<string>)
    ensures |lowered| == |parts|
  {
    seq(|parts|, i requires 0 <= i < |parts| => Lower(parts[i]))
  }

  lemma LowerCat(a: string, b: string)
    ensures Lower(a + b) == Lower(a) + Lower(b)
  {
  }

  lemma {:induction false} LowerJoin(parts: seq<string>)
    ensures Lower(Join(parts, ':')) == Join(LowerAll(parts), ':')
  {
    if |parts| > 1 {
      LowerJoin(parts[1..]);
      assert LowerAll(parts)[1..] == LowerAll(parts[1..]);
      LowerCat(parts[0] + ":", Join(parts[1..], ':'));
      LowerCat(parts[0], ":");
      assert Lower(":") == ":";
    }
  }

  lemma {:induction false} LowerHex(g: string)
    requires forall c :: c in g ==> IsHex(c)
    ensures (forall c :: c in Lower(g) ==> IsHex(c)) && HexValue(Lower(g)) == HexValue(g)
  {
    if g != "" {
      var front := g[..|g| - 1];
      LowerHex(front);
      assert g[|g| - 1] in g;
      assert Lower(g)[..|g| - 1] == Lower(front);
    }
  }

  lemma {:induction false} LowerBytes(groups: seq<string>)
    requires forall g :: g in groups ==> IsGroup(g)
    ensures forall g :: g in LowerAll(groups) ==> IsGroup(g)
    ensures BytesOf(LowerAll(groups)) == BytesOf(groups)
  {
    forall g | g in LowerAll(groups) ensures IsGroup(g) {
      var i :| 0 <= i < |groups| && LowerAll(groups)[i] == g;
      assert groups[i] in groups;
      LowerHex(groups[i]);
    }
    if groups != [] {
      var front := groups[..|groups| - 1];
      LowerBytes(front);
      assert LowerAll(groups)[..|groups| - 1] == LowerAll(front);
      assert groups[|groups| - 1] in groups;
      LowerHex(groups[|groups| - 1]);
    }
  }

  lemma LowerQuad(q: Quad)
    ensures Lower(DottedQuad(q)) == DottedQuad(q)
  {
    hide DottedQuad;
    QuadText(q);
    assert forall i :: 0 <= i < |DottedQuad(q)| ==> DottedQuad(q)[i] in DottedQuad(q);
  }

  function LowerForm(f: Form): Form {
    Form(LowerAll(f.left), f.gap, LowerAll(f.right), f.quad)
  }

  lemma LowerSpells(f: Form)
    requires f.WellFormed()
    ensures LowerForm(f).WellFormed() && LowerForm(f).Value() == f.Value()
    ensures LowerForm(f).Spell() == Lower(f.Spell())
  {
    hide IsGroup, BytesOf, Join, Lower, DottedQuad;
    assert forall g :: g in f.left || g in f.right ==> g in f.left + f.right;
    LowerBytes(f.left);
    LowerBytes(f.right);
    if f.quad.Some? {
      LowerQuad(f.quad.value);
    }
    var last := if f.gap then f.right else f.left;
    assert LowerAll(last + f.Tail()) == LowerAll(last) + f.Tail();
    LowerJoin(last + f.Tail());
    if f.gap {
      LowerJoin(f.left);
      LowerCat(Join(f.left, ':') + "::", Join(last + f.Tail(), ':'));
      LowerCat(Join(f.left, ':'), "::");
      LowerColons();
    }
  }

  lemma LowerColons()
    ensures Lower("::") == "::"
  {
  }

  lemma LowerIsRead(t: string)
    requires ParsedAddress(t).Some?
    ensures ParsedAddress(Lower(t)) == ParsedAddress(t)
  {
    var f := ReadTextsAreForms(t);
    LowerSpells(f);
    FormsAreRead(LowerForm(f));
  }

  lemma LowerTwice(t: string)
    ensures Lower(Lower(t)) == Lower(t)
  {
  }

  /** Classifying the normal form gives the same category, family and normal form again. */
  lemma NormalFormIsStable(input: string)
    requires Classification(input).family != 0
    ensures Classification(Classification(input).normalized) == Classification(input)
  {
    hide ParsedQuad, ParsedAddress, DottedQuad, ClassifyIpv4, ClassifyIpv6, TrimEnd, TrimStart, Unbracketed, Lower;
    var bare := Unbracketed(TrimEnd(TrimStart(input)));
    if ParsedQuad(bare).Some? {
      QuadIsPlain(ParsedQuad(bare).value);
      PlainIsBare(DottedQuad(ParsedQuad(bare).value));
    } else {
      var a := ParsedAddress(bare).value;
      if IsMapped(a) {
        QuadIsPlain(a[12..]);
        PlainIsBare(DottedQuad(a[12..]));
      } else {
        LowerIsRead(bare);
        AddressTexts(Lower(bare));
        PlainIsBare(Lower(bare));
        LowerTwice(bare);
      }
    }
  }

  /** Nothing that could be read is called unknown, and nothing else has a family. */
  lemma UnknownIsUnread(input: string)
    ensures Classification(input).category == Unknown <==> Classification(input).family == 0
    ensures Classification(input).family in {0, 4, 6}
  {
    hide ParsedQuad, ParsedAddress, DottedQuad;
  }
}
