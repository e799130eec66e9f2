/** The state file: written one record per line, read back through the line reader and the
    tokenizer. */
module StateFile {
  import opened Graphs
  import opened Worlds
  import opened Sequences
  import opened Words
  import opened Tokenizer
  import opened LineReader
  import LineReference
  import opened StateDicts

  const ULONG_MAX := 0xFFFF_FFFF_FFFF_FFFF

  // --- numbers ---------------------------------------------------------------------------

  function Digit(d: nat): char
    requires d < 10
  {
    '0' + d as char
  }

  predicate IsDigit(c: char) {
    '0' <= c <= '9'
  }

  function Decimal(n: nat): string {
    if n < 10 then [Digit(n)] else Decimal(n / 10) + [Digit(n % 10)]
  }

  /** The value of the digits at the front, after those of `acc`. */
  function Digits(s: string, acc: nat): nat {
    if s != [] && IsDigit(s[0]) then Digits(s[1..], acc * 10 + (s[0] - '0') as nat) else acc
  }

  /** An unsigned long read from a token: out of range gives the largest, a minus sign negates
      modulo the word size. */
  function Strtoul(s: string): nat {
    var negative := s != [] && s[0] == '-';
    var v := Digits(if negative || (s != [] && s[0] == '+') then s[1..] else s, 0);
    if v > ULONG_MAX then ULONG_MAX
    else if negative then (ULONG_MAX + 1 - v) % (ULONG_MAX + 1)
    else v
  }

  lemma {:induction false} DigitsAppend(a: string, b: string, acc: nat)
    requires forall c :: c in a ==> IsDigit(c)
    ensures Digits(a + b, acc) == Digits(b, Digits(a, acc))
  {
    if a == [] {
      assert a + b == b;
    } else {
      assert (a + b)[1..] == a[1..] + b && (a + b)[0] == a[0] && a[0] in a;
      DigitsAppend(a[1..], b, acc * 10 + (a[0] - '0') as nat);
    }
  }

  lemma {:induction false} DigitsOfDecimal(n: nat)
    ensures Decimal(n) != [] && forall c :: c in Decimal(n) ==> IsDigit(c)
    ensures Digits(Decimal(n), 0) == n
  {
    if n < 10 {
      assert Digits([Digit(n)], 0) == Digits([Digit(n)][1..], n);
    } else {
      DigitsOfDecimal(n / 10);
      DigitsAppend(Decimal(n / 10), [Digit(n % 10)], 0);
      assert Digits([Digit(n % 10)], n / 10) == Digits([Digit(n % 10)][1..], n / 10 * 10 + n % 10);
    }
  }

  /** Reading a printed count gives it back, if it fits the word. */
  lemma StrtoulOfDecimal(n: nat)
    requires n <= ULONG_MAX
    ensures Strtoul(Decimal(n)) == n
  {
    DigitsOfDecimal(n);
    assert Decimal(n)[0] in Decimal(n);
  }

  lemma {:induction false} DecimalLength(n: nat, digits: nat)
    requires digits > 0 && n < Pow10(digits)
    ensures |Decimal(n)| <= digits
    decreases digits
  {
    if n >= 10 {
      DecimalLength(n / 10, digits - 1);
    }
  }

  function Pow10(n: nat): nat {
    if n == 0 then 1 else 10 * Pow10(n - 1)
  }

  /** A count that fits the word has at most twenty digits. */
  lemma DecimalShort(n: nat)
    requires n <= ULONG_MAX
    ensures |Decimal(n)| <= 20
  {
    assert Pow10(4) == 10_000;
    assert Pow10(8) == 100_000_000;
    assert Pow10(12) == 1_000_000_000_000;
    assert Pow10(16) == 10_000_000_000_000_000;
    assert Pow10(20) == 100_000_000_000_000_000_000;
    DecimalLength(n, 20);
  }

  // --- writing ---------------------------------------------------------------------------

  function Mapping(e: Entry): string {
    e.key + "=" + e.rec.mapped
  }

  function LineOf(e: Entry): string {
    Mapping(e) + " " + Decimal(e.rec.refcount) + (if e.rec.isExplicit then " explicit" else "")
  }

  function Render(entries: seq<Entry>): string {
    if entries == [] then "" else LineOf(entries[0]) + "\n" + Render(entries[1..])
  }

  lemma {:induction false} RenderAppend(a: seq<Entry>, e: Entry)
    ensures Render(a + [e]) == Render(a) + LineOf(e) + "\n"
  {
    if a == [] {
      assert a + [e] == [e] && [e][1..] == [];
    } else {
      assert (a + [e])[1..] == a[1..] + [e];
      RenderAppend(a[1..], e);
      Reassociate(LineOf(a[0]) + "\n", Render(a[1..]), LineOf(e) + "\n");
      Reassociate(Render(a[1..]), LineOf(e), "\n");
      Reassociate(Render(a), LineOf(e), "\n");
    }
  }

  method WriteState(entries: seq<Entry>) returns (text: string)
    ensures text == Render(entries)
  {
    text := "";
    for i := 0 to |entries|
      invariant text == Render(entries[..i])
    {
      RenderAppend(entries[..i], entries[i]);
      assert entries[..i + 1] == entries[..i] + [entries[i]];
      text := text + LineOf(entries[i]) + "\n";
    }
    assert entries[..|entries|] == entries;
  }

  // --- reading ---------------------------------------------------------------------------

  /** A buffer after a token was cut, where that starts, and where the next may begin. */
  datatype Token = Token(b: seq<char>, start: nat, next: nat)

  predicate CanCut(b: seq<char>, p: nat) {
    p < |b| && p + |StrAt(b, p)| < |b| && WordEnd(b, p) < |b|
  }

  function Next(b: seq<char>, p: nat): Token
    requires CanCut(b, p)
  {
    Token(b[WordEnd(b, p) := NUL], WordStart(b, p), WordEnd(b, p) + 1)
  }

  predicate ThreeTokens(b: seq<char>) {
    CanCut(b, 0) && TwoTokens(Next(b, 0))
  }

  predicate TwoTokens(t1: Token) {
    CanCut(t1.b, t1.next) && CanCut(Next(t1.b, t1.next).b, Next(t1.b, t1.next).next)
  }

  /** The position of the first such character, or the length. */
  function IndexOf(s: string, c: char): (i: nat)
    ensures i <= |s| && (i < |s| ==> s[i] == c)
  {
    if s == [] || s[0] == c then 0 else 1 + IndexOf(s[1..], c)
  }

  /** The count of a record: absent, zero and out of range all mean one. */
  function CountOf(token: string): nat {
    var v := Strtoul(token);
    if token == [] || v == 0 || v == ULONG_MAX then 1 else v
  }

  /** Key and mapped name of a cut buffer; without an equals sign they are the same. */
  function NamesOf(b: seq<char>, ifname: nat): (Name, Name) {
    var eq := IndexOf(StrAt(b, 0), '=');
    if eq == |StrAt(b, 0)| then (StrAt(b, ifname), StrAt(b, ifname))
    else (StrAt(b[eq := NUL], ifname), StrAt(b[eq := NUL], eq + 1))
  }

  /** What a line buffer means: mapping, count, flag. */
  function Parsed(b: seq<char>): Entry
    requires ThreeTokens(b)
  {
    ParsedRest(Next(b, 0))
  }

  function ParsedRest(t1: Token): Entry
    requires TwoTokens(t1)
  {
    var t2 := Next(t1.b, t1.next);
    var t3 := Next(t2.b, t2.next);
    ParsedFrom(t3.b, t1.start, t2.start, t3.start)
  }

  function ParsedFrom(b: seq<char>, p1: nat, p2: nat, p3: nat): Entry {
    var names := NamesOf(b, p1);
    Entry(names.0, Record(names.1, CountOf(StrAt(b, p2)), StrAt(b, p3) == "explicit"))
  }

  /** What that leaves in the buffer: three terminators, and one at the equals sign. */
  function Torn(b: seq<char>): seq<char>
    requires ThreeTokens(b)
  {
    TornRest(Next(b, 0))
  }

  function TornRest(t1: Token): seq<char>
    requires TwoTokens(t1)
  {
    var t2 := Next(t1.b, t1.next);
    Split(Next(t2.b, t2.next).b)
  }

  function Split(b: seq<char>): seq<char> {
    var eq := IndexOf(StrAt(b, 0), '=');
    if eq == |StrAt(b, 0)| then b else b[eq := NUL]
  }

  /** Take one line buffer apart in place. */
  method ParseLine(buf: array<char>) returns (e: Entry)
    requires ThreeTokens(buf[..])
    modifies buf
    ensures e == Parsed(old(buf[..])) && buf[..] == Torn(old(buf[..]))
  {
    var p1, n1 := CutNext(buf, 0);
    var p2, n2 := CutNext(buf, n1);
    var p3, n3 := CutNext(buf, n2);
    e := ParseParts(buf, p1, p2, p3);
  }

  method CutNext(buf: array<char>, pos: nat) returns (start: nat, next: nat)
    requires CanCut(buf[..], pos)
    modifies buf
    ensures Token(buf[..], start, next) == Next(old(buf[..]), pos)
  {
    start, next := NextToken(buf, pos);
  }

  method ParseParts(buf: array<char>, p1: nat, p2: nat, p3: nat) returns (e: Entry)
    modifies buf
    ensures e == ParsedFrom(old(buf[..]), p1, p2, p3) && buf[..] == Split(old(buf[..]))
  {
    var refcount := 1;
    var isExplicit := StrAt(buf[..], p3) == "explicit";
    var count := StrAt(buf[..], p2);
    if count != [] {
      refcount := Strtoul(count);
      if refcount == 0 || refcount == ULONG_MAX {
        refcount := 1;
      }
    }
    var key, mapped := ParseNames(buf, p1);
    e := Entry(key, Record(mapped, refcount, isExplicit));
  }

  method ParseNames(buf: array<char>, ifname: nat) returns (key: Name, mapped: Name)
    modifies buf
    ensures (key, mapped) == NamesOf(old(buf[..]), ifname) && buf[..] == Split(old(buf[..]))
  {
    var line := StrAt(buf[..], 0);
    var eq := IndexOf(line, '=');
    if eq == |line| {
      key := StrAt(buf[..], ifname);
      mapped := key;
    } else {
      buf[eq] := NUL;
      key, mapped := StrAt(buf[..], ifname), StrAt(buf[..], eq + 1);
    }
  }

  // --- the round trip ----------------------------------------------------------------------

  /** Names that the line reader and the tokenizer pass through. */
  predicate Printable(s: string) {
    forall c :: c in s ==> !IsSpace(c) && c != '#' && c != '\\' && c != NUL
  }

  predicate PrintableEntry(e: Entry) {
    && Printable(e.key) && '=' !in e.key && Printable(e.rec.mapped)
    && 0 < e.rec.refcount < ULONG_MAX
    && |LineOf(e)| <= BUFFER_LEN - 3
  }

  lemma {:induction false} NulAhead(b: seq<char>, p: nat, q: nat)
    requires p <= q < |b| && b[q] == NUL
    ensures p + |StrAt(b, p)| <= q
    decreases q - p
  {
    if p < q {
      NulAhead(b, p + 1, q);
    }
  }

  ghost predicate Has(b: seq<char>, p: nat, w: string) {
    p + |w| <= |b| && b[p..p + |w|] == w
  }

  lemma {:induction false} StrAtSplit(b: seq<char>, p: nat, w: string)
    requires Has(b, p, w) && NUL !in w
    ensures StrAt(b, p) == w + StrAt(b, p + |w|)
    decreases |w|
  {
    if w != [] {
      assert b[p] == b[p..p + |w|][0] == w[0] && w[0] in w;
      assert b[p + 1..p + |w|] == b[p..p + |w|][1..];
      StrAtSplit(b, p + 1, w[1..]);
    }
  }

  /** A word in the buffer, with a blank or the end after it, is what the tokenizer cuts. */
  lemma WordAt(b: seq<char>, p: nat, w: string, q: nat)
    requires Has(b, p, w) && p + |w| <= q < |b| && b[q] == NUL && IsWord(w) && NUL !in w
    requires IsSpace(b[p + |w|]) || b[p + |w|] == NUL
    ensures WordStart(b, p) == p && WordEnd(b, p) == p + |w| && CanCut(b, p)
  {
    NulAhead(b, p, q);
    StrAtSplit(b, p, w);
    var rest := StrAt(b, p + |w|);
    assert rest != [] ==> rest[0] == b[p + |w|];
    assert (w + rest)[0] == w[0] && w[0] in w;
    WordLengthOf(w, rest);
  }

  lemma StrIs(b: seq<char>, p: nat, w: string)
    requires Has(b, p, w) && p + |w| < |b| && NUL !in w && b[p + |w|] == NUL
    ensures StrAt(b, p) == w
  {
    StrAtSplit(b, p, w);
  }

  lemma {:induction false} IndexOfAfter(a: string, c: char, rest: string)
    requires c !in a
    ensures IndexOf(a + [c] + rest, c) == |a|
  {
    var s := a + [c] + rest;
    if a != [] {
      assert s[0] == a[0] && a[0] in a && s[1..] == a[1..] + [c] + rest;
      IndexOfAfter(a[1..], c, rest);
    }
  }

  lemma DecimalIsWord(n: nat)
    ensures IsWord(Decimal(n)) && NUL !in Decimal(n)
  {
    DigitsOfDecimal(n);
  }

  lemma MappingIsWord(e: Entry)
    requires PrintableEntry(e)
    ensures IsWord(Mapping(e)) && NUL !in Mapping(e)
  {
  }

  /** The positions of the parts of a written line: mapping, count, flag or nothing. */
  ghost predicate Laid(b: seq<char>, w1: string, w2: string, flag: bool) {
    var n1 := |w1| + 1;
    var n2 := n1 + |w2| + 1;
    && n2 + (if flag then 8 else 0) < |b|
    && Has(b, 0, w1) && Has(b, n1, w2) && IsWord(w1) && IsWord(w2) && NUL !in w1 && NUL !in w2
    && (b[|w1|] == ' ' || b[|w1|] == NUL)
    && (if flag then Has(b, n2, "explicit") && b[n2 + 8] == NUL && (b[n2 - 1] == ' ' || b[n2 - 1] == NUL)
        else b[n2 - 1] == NUL && b[n2] == NUL)
  }

  lemma LaidCut(b: seq<char>, w1: string, w2: string, flag: bool, i: nat)
    requires Laid(b, w1, w2, flag) && (i == |w1| || i == |w1| + |w2| + 1)
    ensures Laid(b[i := NUL], w1, w2, flag)
  {
    var c, n1 := b[i := NUL], |w1| + 1;
    var n2 := n1 + |w2| + 1;
    assert c[0..|w1|] == b[0..|w1|] && c[n1..n1 + |w2|] == b[n1..n1 + |w2|];
    assert flag ==> c[n2..n2 + 8] == b[n2..n2 + 8];
  }

  lemma FirstPart(b: seq<char>, w1: string, w2: string, flag: bool)
    requires Laid(b, w1, w2, flag)
    ensures CanCut(b, 0) && Next(b, 0) == Token(b[|w1| := NUL], 0, |w1| + 1)
  {
    WordAt(b, 0, w1, if flag then |w1| + |w2| + 10 else |w1| + |w2| + 1);
  }

  lemma SecondPart(b: seq<char>, w1: string, w2: string, flag: bool)
    requires Laid(b, w1, w2, flag)
    ensures var n1 := |w1| + 1;
            CanCut(b, n1) && Next(b, n1) == Token(b[n1 + |w2| := NUL], n1, n1 + |w2| + 1)
  {
    WordAt(b, |w1| + 1, w2, if flag then |w1| + |w2| + 10 else |w1| + |w2| + 1);
  }

  lemma ThirdPart(b: seq<char>, w1: string, w2: string, flag: bool)
    requires Laid(b, w1, w2, flag)
    ensures var n2 := |w1| + |w2| + 2;
            CanCut(b, n2) && Next(b, n2).b == b && Next(b, n2).start == n2
  {
    var n2 := |w1| + |w2| + 2;
    if flag {
      WordAt(b, n2, "explicit", n2 + 8);
    } else {
      assert StrAt(b, n2) == [];
    }
    assert b[WordEnd(b, n2) := NUL] == b;
  }

  lemma TokensFrom(b: seq<char>, b2: seq<char>, n1: nat, n2: nat)
    requires CanCut(b, n1) && Next(b, n1) == Token(b2, n1, n2)
    requires CanCut(b2, n2) && Next(b2, n2).b == b2 && Next(b2, n2).start == n2
    ensures TwoTokens(Token(b, 0, n1)) && ParsedRest(Token(b, 0, n1)) == ParsedFrom(b2, 0, n1, n2)
  {
  }

  lemma LaidRest(b: seq<char>, w1: string, w2: string, flag: bool, b2: seq<char>)
    requires Laid(b, w1, w2, flag) && b2 == b[|w1| + |w2| + 1 := NUL]
    ensures var t1 := Token(b, 0, |w1| + 1);
            TwoTokens(t1) && ParsedRest(t1) == ParsedFrom(b2, 0, |w1| + 1, |w1| + |w2| + 2)
    ensures Laid(b2, w1, w2, flag)
  {
    LaidCut(b, w1, w2, flag, |w1| + |w2| + 1);
    var n1, n2 := |w1| + 1, |w1| + |w2| + 2;
    assert CanCut(b, n1) && Next(b, n1) == Token(b2, n1, n2) by {
      SecondPart(b, w1, w2, flag);
    }
    assert CanCut(b2, n2) && Next(b2, n2).b == b2 && Next(b2, n2).start == n2 by {
      ThirdPart(b2, w1, w2, flag);
    }
    TokensFrom(b, b2, n1, n2);
  }

  /** The tokenizer cuts the parts out, one after the other. */
  lemma LaidTokens(b: seq<char>, w1: string, w2: string, flag: bool)
    requires Laid(b, w1, w2, flag)
    ensures var b2 := b[|w1| := NUL][|w1| + |w2| + 1 := NUL];
            && ThreeTokens(b) && Parsed(b) == ParsedFrom(b2, 0, |w1| + 1, |w1| + |w2| + 2)
            && Laid(b2, w1, w2, flag)
  {
    FirstPart(b, w1, w2, flag);
    LaidCut(b, w1, w2, flag, |w1|);
    LaidRest(b[|w1| := NUL], w1, w2, flag, b[|w1| := NUL][|w1| + |w2| + 1 := NUL]);
  }

  lemma FlagString(b: seq<char>, p: nat, flag: bool)
    requires p + (if flag then 8 else 0) < |b|
    requires if flag then Has(b, p, "explicit") && b[p + 8] == NUL else b[p] == NUL
    ensures (StrAt(b, p) == "explicit") == flag
  {
    if flag {
      StrIs(b, p, "explicit");
    }
  }

  /** The parts read as strings once everything is cut. */
  lemma LaidStrings(b: seq<char>, w1: string, w2: string, flag: bool)
    requires Laid(b, w1, w2, flag) && b[|w1|] == NUL && b[|w1| + |w2| + 1] == NUL
    ensures StrAt(b, 0) == w1 && StrAt(b, |w1| + 1) == w2
    ensures (StrAt(b, |w1| + |w2| + 2) == "explicit") == flag
  {
    StrIs(b, 0, w1);
    StrIs(b, |w1| + 1, w2);
    FlagString(b, |w1| + |w2| + 2, flag);
  }

  lemma MappingSplits(b: seq<char>, e: Entry)
    requires PrintableEntry(e) && Has(b, 0, Mapping(e)) && |Mapping(e)| < |b| && b[|Mapping(e)|] == NUL
    ensures IndexOf(Mapping(e), '=') == |e.key| < |Mapping(e)|
    ensures var c := b[|e.key| := NUL]; StrAt(c, 0) == e.key && StrAt(c, |e.key| + 1) == e.rec.mapped
  {
    IndexOfAfter(e.key, '=', e.rec.mapped);
    assert Mapping(e) == e.key + ['='] + e.rec.mapped;
    var c, m := b[|e.key| := NUL], Mapping(e);
    assert c[0..|e.key|] == b[0..|m|][..|e.key|] == e.key;
    assert c[|e.key| + 1..|m|] == b[0..|m|][|e.key| + 1..] == e.rec.mapped;
    StrIs(c, 0, e.key);
    StrIs(c, |e.key| + 1, e.rec.mapped);
  }

  lemma CountOfDecimal(n: nat)
    requires 0 < n < ULONG_MAX
    ensures CountOf(Decimal(n)) == n
  {
    DecimalIsWord(n);
    StrtoulOfDecimal(n);
  }

  /** Cut apart, the parts of a written line give its record. */
  lemma FromLaid(b: seq<char>, e: Entry, w1: string, w2: string)
    requires PrintableEntry(e) && w1 == Mapping(e) && w2 == Decimal(e.rec.refcount)
    requires Laid(b, w1, w2, e.rec.isExplicit) && b[|w1|] == NUL && b[|w1| + |w2| + 1] == NUL
    ensures ParsedFrom(b, 0, |w1| + 1, |w1| + |w2| + 2) == e
  {
    LaidStrings(b, w1, w2, e.rec.isExplicit);
    assert NamesOf(b, 0) == (e.key, e.rec.mapped) by {
      MappingSplits(b, e);
    }
    assert CountOf(w2) == e.rec.refcount by {
      CountOfDecimal(e.rec.refcount);
    }
  }

  lemma ParsedLaid(b: seq<char>, e: Entry, w1: string, w2: string)
    requires PrintableEntry(e) && w1 == Mapping(e) && w2 == Decimal(e.rec.refcount)
    requires Laid(b, w1, w2, e.rec.isExplicit)
    ensures ThreeTokens(b) && Parsed(b) == e
  {
    LaidTokens(b, w1, w2, e.rec.isExplicit);
    FromLaid(b[|w1| := NUL][|w1| + |w2| + 1 := NUL], e, w1, w2);
  }

  /** The buffer that the reader leaves for a written line, whatever was there before. */
  ghost predicate HoldsLine(b: seq<char>, l: string) {
    |l| + 2 <= |b| && b[..|l|] == l && b[|l|] == NUL && b[|l| + 1] == NUL
  }

  lemma PartOfLine(b: seq<char>, l: string, p: nat, w: string)
    requires HoldsLine(b, l) && Has(l, p, w)
    ensures Has(b, p, w)
  {
    assert b[p..p + |w|] == b[..|l|][p..p + |w|];
  }

  /** The parts of a line at their places in the buffer. */
  lemma PartsOfLine(b: seq<char>, w1: string, w2: string, tail: string)
    requires HoldsLine(b, w1 + " " + w2 + tail)
    ensures Has(b, 0, w1) && b[|w1|] == ' ' && Has(b, |w1| + 1, w2) && Has(b, |w1| + |w2| + 1, tail)
    ensures b[|w1| + |w2| + |tail| + 1] == NUL && b[|w1| + |w2| + |tail| + 2] == NUL
  {
    var l := w1 + " " + w2 + tail;
    assert Has(l, 0, w1) && l[|w1|] == ' ' && Has(l, |w1| + 1, w2) && Has(l, |w1| + |w2| + 1, tail);
    PartOfLine(b, l, 0, w1);
    PartOfLine(b, l, |w1| + 1, w2);
    PartOfLine(b, l, |w1| + |w2| + 1, tail);
    assert b[|w1|] == b[..|l|][|w1|];
  }

  lemma LineIsLaid(b: seq<char>, e: Entry, w1: string, w2: string)
    requires PrintableEntry(e) && w1 == Mapping(e) && w2 == Decimal(e.rec.refcount)
    requires HoldsLine(b, LineOf(e))
    ensures Laid(b, w1, w2, e.rec.isExplicit)
  {
    DecimalIsWord(e.rec.refcount);
    MappingIsWord(e);
    var flag := " explicit";
    PartsOfLine(b, w1, w2, if e.rec.isExplicit then flag else "");
    if e.rec.isExplicit {
      var n := |w1| + |w2| + 1;
      assert b[n] == b[n..n + 9][0] && b[n + 1..n + 9] == b[n..n + 9][1..] == flag[1..];
    }
  }

  /** Whatever stale bytes follow it in the buffer, a written line parses to its record. */
  lemma ParsedLine(b: seq<char>, e: Entry)
    requires PrintableEntry(e) && HoldsLine(b, LineOf(e))
    ensures ThreeTokens(b) && Parsed(b) == e
  {
    LineIsLaid(b, e, Mapping(e), Decimal(e.rec.refcount));
    ParsedLaid(b, e, Mapping(e), Decimal(e.rec.refcount));
  }

  // --- whole files -------------------------------------------------------------------------

  ghost predicate PrintableEntries(entries: seq<Entry>) {
    forall e :: e in entries ==> PrintableEntry(e)
  }

  predicate PlainChar(c: char) {
    c != '\\' && c != '#' && c != '\n' && c != '\r' && c != NUL
  }

  /** A line of plain characters that fits is read whole, up to its newline. */
  lemma {:induction false} ScanPlain(l: string, more: string, out: string, limit: nat)
    requires (forall c :: c in l ==> PlainChar(c)) && |out| + |l| < limit
    ensures Scan(l + "\n" + more, out, false, limit) == Scanned(out + l + "\n", more, Ended)
    decreases |l|
  {
    var t := l + "\n" + more;
    if l == [] {
      assert t[0] == '\n' && t[1..] == more && out + l + "\n" == out + ['\n'];
    } else {
      assert t[0] == l[0] && l[0] in l && t[1..] == l[1..] + "\n" + more;
      ScanPlain(l[1..], more, out + [l[0]], limit);
      assert out + [l[0]] + l[1..] + "\n" == out + l + "\n";
    }
  }

  lemma LineIsPlain(e: Entry)
    requires PrintableEntry(e)
    ensures forall c :: c in LineOf(e) ==> PlainChar(c)
    ensures LineOf(e) != []
  {
    DigitsOfDecimal(e.rec.refcount);
    assert forall c :: c in LineOf(e) ==>
      c in e.key || c == '=' || c in e.rec.mapped || c == ' ' || c in Decimal(e.rec.refcount) || c in " explicit";
  }

  lemma WrittenLineScans(e: Entry, more: string)
    requires PrintableEntry(e)
    ensures Scan(LineOf(e) + "\n" + more, [], false, BUFFER_LEN - 2) == Scanned(LineOf(e) + "\n", more, Ended)
    ensures Chomp(LineOf(e) + "\n") == LineOf(e)
  {
    LineIsPlain(e);
    ScanPlain(LineOf(e), more, [], BUFFER_LEN - 2);
    assert [] + LineOf(e) + "\n" == LineOf(e) + "\n";
    LastIsPlain(LineOf(e));
  }

  /** One call of the reader on what the writer wrote: the buffer holds the next line, or the
      records are all read. */
  method ReadWritten(buf: array<char>, stream: Stream, ghost entries: seq<Entry>) returns (ok: bool)
    requires buf.Length == BUFFER_LEN && PrintableEntries(entries) && stream.rest == Render(entries)
    modifies buf, stream
    ensures ok == (entries != [])
    ensures ok ==> stream.rest == Render(entries[1..]) && HoldsLine(buf[..], LineOf(entries[0]))
  {
    if entries != [] {
      assert entries[0] in entries;
      WrittenLineScans(entries[0], Render(entries[1..]));
    }
    ok := FGetLine(buf, stream);
  }

  lemma LastIsPlain(l: string)
    requires forall c :: c in l ==> PlainChar(c)
    ensures Chomp(l + "\n") == l
  {
    assert (l + "\n")[..|l|] == l;
    assert l != [] ==> l[|l| - 1] in l;
  }

  /** Keys differ, so reading a record appends it. */
  lemma UpsertNew(entries: seq<Entry>, i: nat)
    requires UniqueKeys(entries) && i < |entries|
    ensures Upsert(entries[..i], entries[i].key, entries[i].rec) == entries[..i + 1]
  {
    DeleteAbsent(entries[..i], entries[i].key);
    assert entries[i] == Entry(entries[i].key, entries[i].rec);
  }

  /** The round trip: reading what was written gives the same records in the same order. */
  method ReadState(dict: StateDict, stream: Stream, ghost entries: seq<Entry>)
    requires dict.entries == [] && stream.rest == Render(entries)
    requires UniqueKeys(entries) && PrintableEntries(entries)
    modifies dict, stream
    ensures dict.entries == entries
  {
    var buf := new char[BUFFER_LEN];
    ghost var i := 0;
    assert entries[0..] == entries;
    var ok := ReadWritten(buf, stream, entries);
    while ok
      invariant i <= |entries| && dict.entries == entries[..i] && ok == (i < |entries|)
      invariant ok ==> stream.rest == Render(entries[i + 1..]) && HoldsLine(buf[..], LineOf(entries[i]))
      decreases |entries| - i
    {
      assert entries[i] in entries;
      ParsedLine(buf[..], entries[i]);
      var e := ParseLine(buf);
      UpsertNew(entries, i);
      dict.Put(e.key, e.rec);
      i := i + 1;
      assert i < |entries| ==> entries[i..][0] == entries[i] && entries[i..][1..] == entries[i + 1..];
      ok := ReadWritten(buf, stream, entries[i..]);
    }
  }

  function LinesOf(entries: seq<Entry>): seq<string> {
    if entries == [] then [] else [LineOf(entries[0])] + LinesOf(entries[1..])
  }

  /** Successive calls of the reader on a written file return its lines, one per record. */
  lemma {:induction false} ReadAllOfRender(entries: seq<Entry>)
    requires PrintableEntries(entries)
    ensures LineReference.ReadAll(Render(entries), BUFFER_LEN - 2) == LinesOf(entries)
  {
    if entries != [] {
      assert entries[0] in entries;
      WrittenLineScans(entries[0], Render(entries[1..]));
      ReadAllOfRender(entries[1..]);
    }
  }
}
