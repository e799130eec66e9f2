/** Lines of the state file that the program does not write itself: which of them mean what they
    say, and which depend on bytes that an earlier line left in the buffer. */
module StateLines {
  import opened Worlds
  import opened Words
  import opened Tokenizer
  import opened LineReader
  import opened StateDicts
  import opened StateFile

  /** Where the first word of a line ends. */
  function FirstWordEnd(l: string): (n: nat)
    ensures n <= |l|
  {
    |l| - |SkipSpaces(l)| + WordLength(SkipSpaces(l))
  }

  function FirstWord(s: string): string {
    SkipSpaces(s)[..WordLength(SkipSpaces(s))]
  }

  /** The line is a mapping alone, or empty, and no blank follows. */
  predicate Bare(l: string) {
    FirstWordEnd(l) == |l|
  }

  lemma LineStr(b: seq<char>, l: string)
    requires HoldsLine(b, l) && NUL !in l
    ensures StrAt(b, 0) == l && WordEnd(b, 0) == FirstWordEnd(l) && CanCut(b, 0)
  {
    StrIs(b, 0, l);
  }

  // --- a mapping alone ---------------------------------------------------------------------

  /** The first two cuts of a bare line change nothing, and use up both its terminators. */
  lemma BareCuts(b: seq<char>, l: string)
    requires HoldsLine(b, l) && NUL !in l && Bare(l)
    ensures CanCut(b, 0) && Next(b, 0).b == b && Next(b, 0).next == |l| + 1
    ensures CanCut(b, |l| + 1) && Next(b, |l| + 1) == Token(b, |l| + 1, |l| + 2)
  {
    LineStr(b, l);
    assert b[|l| := NUL] == b && b[|l| + 1 := NUL] == b;
    assert StrAt(b, |l| + 1) == [];
  }

  /** So the flag of a bare line is whatever word lies behind its terminators. Its count is 1; and
      it stays inside the buffer only if what lies there is terminated. */
  lemma BareLine(b: seq<char>, l: string)
    requires HoldsLine(b, l) && NUL !in l && Bare(l)
    ensures ThreeTokens(b) <==> CanCut(b, |l| + 2)
    ensures ThreeTokens(b) ==>
              Parsed(b).rec.refcount == 1
              && (Parsed(b).rec.isExplicit <==> FirstWord(StrAt(b, |l| + 2)) == "explicit")
  {
    BareCuts(b, l);
    if ThreeTokens(b) {
      var p := |l| + 2;
      TokenIs(b, p);
      var t3 := Next(b, p);
      assert StrAt(t3.b, |l| + 1) == [];
      assert Parsed(b) == ParsedFrom(t3.b, Next(b, 0).start, |l| + 1, t3.start);
    }
  }

  // --- any other line ----------------------------------------------------------------------

  /** Two buffers that agree up to a terminator. */
  ghost predicate SameFront(b: seq<char>, c: seq<char>, n: nat) {
    0 < n <= |b| && n <= |c| && b[..n] == c[..n] && b[n - 1] == NUL
  }

  lemma {:induction false} SameStr(b: seq<char>, c: seq<char>, n: nat, p: nat)
    requires SameFront(b, c, n) && p < n
    ensures StrAt(b, p) == StrAt(c, p) && p + |StrAt(b, p)| < n
    decreases n - p
  {
    assert b[p] == b[..n][p] == c[..n][p] == c[p];
    if b[p] != NUL {
      SameStr(b, c, n, p + 1);
    }
  }

  lemma SameCut(b: seq<char>, c: seq<char>, n: nat, p: nat)
    requires SameFront(b, c, n) && p < n
    ensures CanCut(b, p) && CanCut(c, p)
    ensures var s, t := Next(b, p), Next(c, p);
            s.start == t.start < n && s.next == t.next <= n && SameFront(s.b, t.b, n)
  {
    SameStr(b, c, n, p);
    var e := WordEnd(b, p);
    assert b[e := NUL][..n] == b[..n][e := NUL] == c[..n][e := NUL] == c[e := NUL][..n];
  }

  lemma SameSplit(b: seq<char>, c: seq<char>, n: nat, p1: nat, p2: nat, p3: nat)
    requires SameFront(b, c, n) && p1 < n && p2 < n && p3 < n
    ensures ParsedFrom(b, p1, p2, p3) == ParsedFrom(c, p1, p2, p3)
  {
    SameStr(b, c, n, 0);
    SameStr(b, c, n, p1);
    SameStr(b, c, n, p2);
    SameStr(b, c, n, p3);
    var eq := IndexOf(StrAt(b, 0), '=');
    if eq < |StrAt(b, 0)| {
      var b1, c1 := b[eq := NUL], c[eq := NUL];
      assert b1[..n] == b[..n][eq := NUL] == c[..n][eq := NUL] == c1[..n];
      SameStr(b1, c1, n, p1);
      SameStr(b1, c1, n, eq + 1);
    }
  }

  /** Cuts in a line that goes on behind its first word stay inside its terminators. */
  lemma CutsInside(b: seq<char>, l: string)
    requires HoldsLine(b, l) && NUL !in l && !Bare(l)
    ensures CanCut(b, 0) && Next(b, 0).next <= |l|
    ensures var t1 := Next(b, 0); CanCut(t1.b, t1.next) && Next(t1.b, t1.next).next <= |l| + 1
  {
    LineStr(b, l);
    var t1 := Next(b, 0);
    assert t1.b[|l|] == NUL;
    NulAhead(t1.b, t1.next, |l|);
  }

  /** A line that is not bare parses, and to the same record whatever lies behind it. */
  lemma LineDetermines(b: seq<char>, c: seq<char>, l: string)
    requires HoldsLine(b, l) && HoldsLine(c, l) && NUL !in l && !Bare(l)
    ensures ThreeTokens(b) && ThreeTokens(c) && Parsed(b) == Parsed(c)
  {
    var n := |l| + 2;
    assert SameFront(b, c, n) by {
      FrontOfLine(b, l);
      FrontOfLine(c, l);
    }
    CutsInside(b, l);
    SameCut(b, c, n, 0);
    var b1, c1 := Next(b, 0), Next(c, 0);
    SameCut(b1.b, c1.b, n, b1.next);
    var b2, c2 := Next(b1.b, b1.next), Next(c1.b, c1.next);
    SameCut(b2.b, c2.b, n, b2.next);
    var b3, c3 := Next(b2.b, b2.next), Next(c2.b, c2.next);
    SameSplit(b3.b, c3.b, n, b1.start, b2.start, b3.start);
  }

  lemma FrontOfLine(b: seq<char>, l: string)
    requires HoldsLine(b, l)
    ensures b[..|l| + 2] == l + [NUL, NUL]
  {
    assert b[..|l| + 2] == b[..|l|] + [b[|l|], b[|l| + 1]];
  }

  // --- exactly -----------------------------------------------------------------------------

  /** Whatever a buffer of this size holds behind the line, the record is the same. */
  ghost predicate Determined(l: string, size: nat) {
    forall b: seq<char>, c: seq<char> ::
      HoldsLine(b, l) && HoldsLine(c, l) && |b| == size && |c| == size && ThreeTokens(b) && ThreeTokens(c)
      ==> Parsed(b) == Parsed(c)
  }

  /** A buffer that holds the line, then the given bytes, then zeros. */
  function Behind(l: string, stale: string, size: nat): (b: seq<char>)
    requires |l| + 2 + |stale| <= size
    ensures |b| == size && HoldsLine(b, l) && b[|l| + 2..|l| + 2 + |stale|] == stale
    ensures forall i :: |l| + 2 + |stale| <= i < size ==> b[i] == NUL
  {
    l + [NUL, NUL] + stale + seq(size - |l| - 2 - |stale|, i => NUL)
  }

  lemma BareStale(l: string, stale: string, size: nat)
    requires Bare(l) && NUL !in l && |l| + 2 + |stale| < size && (stale == [] || stale == "explicit")
    ensures var b := Behind(l, stale, size); ThreeTokens(b) && (Parsed(b).rec.isExplicit <==> stale == "explicit")
  {
    var b := Behind(l, stale, size);
    StrIs(b, |l| + 2, stale);
    if stale != [] {
      WordLengthOf(stale, []);
      assert stale + [] == stale;
    }
    BareLine(b, l);
  }

  /** The record of a line is determined by the line exactly when the line goes on behind its
      mapping, if only by a blank. */
  lemma DeterminedIff(l: string, size: nat)
    requires NUL !in l && |l| + 11 <= size
    ensures Determined(l, size) <==> !Bare(l)
  {
    if Bare(l) {
      BareStale(l, [], size);
      BareStale(l, "explicit", size);
      assert Parsed(Behind(l, [], size)) != Parsed(Behind(l, "explicit", size));
    } else {
      forall b: seq<char>, c: seq<char> | HoldsLine(b, l) && HoldsLine(c, l) && |b| == size && |c| == size
        ensures ThreeTokens(b) && ThreeTokens(c) && Parsed(b) == Parsed(c)
      {
        LineDetermines(b, c, l);
      }
    }
  }

  // --- a file that is misread --------------------------------------------------------------

  lemma WordIsBare(w: string)
    requires IsWord(w)
    ensures Bare(w)
  {
    assert w + [] == w && !IsSpace(w[0]) by {
      assert w[0] in w;
    }
    WordLengthOf(w, []);
  }

  /** The record of a mapping alone: its names, count 1, and the word behind it for a flag. */
  lemma BareRecord(b: seq<char>, f: Entry)
    requires PrintableEntry(f) && HoldsLine(b, Mapping(f)) && CanCut(b, |Mapping(f)| + 2)
    ensures ThreeTokens(b)
    ensures Parsed(b) == Entry(f.key, Record(f.rec.mapped, 1, FirstWord(StrAt(b, |Mapping(f)| + 2)) == "explicit"))
  {
    var l := Mapping(f);
    MappingIsWord(f);
    WordIsBare(l);
    BareLine(b, l);
    BareCuts(b, l);
    var t3 := Next(b, |l| + 2);
    assert Has(t3.b, 0, l) && t3.b[|l|] == NUL;
    MappingSplits(t3.b, f);
    StrIs(t3.b, 0, l);
    assert Parsed(b) == ParsedFrom(t3.b, 0, |l| + 1, t3.start) by {
      BareStart(b, l);
    }
  }

  lemma BareStart(b: seq<char>, l: string)
    requires HoldsLine(b, l) && IsWord(l) && NUL !in l
    ensures CanCut(b, 0) && Next(b, 0).start == 0
  {
    LineStr(b, l);
    assert l[0] in l;
  }

  /** The keyword, and its terminator. */
  ghost predicate FlagAt(b: seq<char>, p: nat) {
    Has(b, p, "explicit") && p + 8 < |b| && b[p + 8] == NUL
  }

  /** The flag of a written line stays in the buffer when the line is taken apart. */
  lemma TornKeepsFlag(b: seq<char>, e: Entry, w1: string, w2: string, p: nat)
    requires PrintableEntry(e) && e.rec.isExplicit && HoldsLine(b, LineOf(e))
    requires w1 == Mapping(e) && w2 == Decimal(e.rec.refcount) && p == |w1| + |w2| + 2
    ensures ThreeTokens(b) && FlagAt(Torn(b), p)
  {
    LineIsLaid(b, e, w1, w2);
    LaidTorn(b, w1, w2);
  }

  lemma LaidTorn(b: seq<char>, w1: string, w2: string)
    requires Laid(b, w1, w2, true)
    ensures ThreeTokens(b) && FlagAt(Torn(b), |w1| + |w2| + 2)
  {
    var b1 := b[|w1| := NUL];
    var b2 := b1[|w1| + |w2| + 1 := NUL];
    FirstPart(b, w1, w2, true);
    LaidCut(b, w1, w2, true, |w1|);
    LaidCut(b1, w1, w2, true, |w1| + |w2| + 1);
    LaidTornRest(b1, w1, w2, b2);
    LaidFlag(b2, w1, w2);
  }

  lemma LaidFlag(b: seq<char>, w1: string, w2: string)
    requires Laid(b, w1, w2, true) && b[|w1|] == NUL
    ensures FlagAt(Split(b), |w1| + |w2| + 2)
  {
    StrIs(b, 0, w1);
    SplitKeepsFlag(b, w1, |w1| + |w2| + 2);
  }

  lemma LaidTornRest(b: seq<char>, w1: string, w2: string, b2: seq<char>)
    requires Laid(b, w1, w2, true) && Laid(b2, w1, w2, true) && b2 == b[|w1| + |w2| + 1 := NUL]
    ensures var t1 := Token(b, 0, |w1| + 1); TwoTokens(t1) && TornRest(t1) == Split(b2)
  {
    var n1, n2 := |w1| + 1, |w1| + |w2| + 2;
    assert CanCut(b, n1) && Next(b, n1) == Token(b2, n1, n2) by {
      SecondPart(b, w1, w2, true);
    }
    assert CanCut(b2, n2) && Next(b2, n2).b == b2 by {
      ThirdPart(b2, w1, w2, true);
    }
    TornFrom(b, b2, n1, n2);
  }

  lemma TornFrom(b: seq<char>, b2: seq<char>, n1: nat, n2: nat)
    requires CanCut(b, n1) && Next(b, n1) == Token(b2, n1, n2)
    requires CanCut(b2, n2) && Next(b2, n2).b == b2
    ensures TwoTokens(Token(b, 0, n1)) && TornRest(Token(b, 0, n1)) == Split(b2)
  {
  }

  lemma SplitKeepsFlag(b: seq<char>, w1: string, p: nat)
    requires StrAt(b, 0) == w1 && |w1| < p && FlagAt(b, p)
    ensures FlagAt(Split(b), p)
  {
    assert Split(b)[p..p + 8] == b[p..p + 8];
  }

  /** So a mapping alone that ends where the count of an explicit record before it ended is read
      as explicit. */
  lemma FlagBehind(b: seq<char>, f: Entry)
    requires PrintableEntry(f) && HoldsLine(b, Mapping(f)) && FlagAt(b, |Mapping(f)| + 2)
    ensures ThreeTokens(b) && Parsed(b) == Entry(f.key, Record(f.rec.mapped, 1, true))
  {
    var p := |Mapping(f)| + 2;
    StrIs(b, p, "explicit");
    WordAt(b, p, "explicit", p + 8);
    WordLengthOf("explicit", []);
    assert "explicit" + [] == "explicit";
    BareRecord(b, f);
  }

  function Text(lines: seq<string>): string {
    if lines == [] then "" else lines[0] + "\n" + Text(lines[1..])
  }

  predicate PlainLine(l: string) {
    l != [] && |l| < BUFFER_LEN - 2 && forall c :: c in l ==> PlainChar(c)
  }

  /** One call of the reader on lines of plain characters that fit; what lies behind the line in
      the buffer stays. */
  method ReadNext(buf: array<char>, stream: Stream, ghost lines: seq<string>) returns (ok: bool)
    requires buf.Length == BUFFER_LEN && stream.rest == Text(lines) && forall l :: l in lines ==> PlainLine(l)
    modifies buf, stream
    ensures ok == (lines != [])
    ensures ok ==> stream.rest == Text(lines[1..]) && HoldsLine(buf[..], lines[0])
                   && buf[..][|lines[0]| + 2..] == old(buf[..])[|lines[0]| + 2..]
  {
    ghost var before := buf[..];
    if lines != [] {
      PlainScans(lines[0], Text(lines[1..]));
    }
    ok := FGetLine(buf, stream);
    if ok {
      assert buf[..] == lines[0] + [NUL, NUL] + before[|lines[0]| + 2..];
    }
  }

  lemma PlainScans(l: string, more: string)
    requires PlainLine(l)
    ensures Scan(l + "\n" + more, [], false, BUFFER_LEN - 2) == Scanned(l + "\n", more, Ended)
    ensures Chomp(l + "\n") == l && WithTerminators(l + "\n") == l + [NUL, NUL]
  {
    ScanPlain(l, more, [], BUFFER_LEN - 2);
    assert [] + l + "\n" == l + "\n";
    LastIsPlain(l);
  }

  lemma EntryLines(e: Entry)
    requires PrintableEntry(e)
    ensures PlainLine(LineOf(e)) && PlainLine(Mapping(e))
  {
    LineIsPlain(e);
    MappingIsWord(e);
    assert forall c :: c in Mapping(e) ==> c in LineOf(e);
  }

  /** What the loop has done when i lines are read and line i is in the buffer. */
  ghost predicate Misread(entries: seq<Entry>, b: seq<char>, e: Entry, f: Entry, p: nat, i: nat) {
    if i == 0 then entries == [] && HoldsLine(b, LineOf(e))
    else if i == 1 then entries == [e] && HoldsLine(b, Mapping(f)) && FlagAt(b, p)
    else entries == [e, Entry(f.key, Record(f.rec.mapped, 1, true))]
  }

  /** A mapping alone, of another interface, that is as long as mapping and count of e: the flag
      of e, and what lies behind that mapping, start at p. */
  ghost predicate Shadows(e: Entry, f: Entry, p: nat) {
    && PrintableEntry(e) && e.rec.isExplicit && PrintableEntry(f) && f.key != e.key
    && p == |Mapping(f)| + 2 == |Mapping(e)| + |Decimal(e.rec.refcount)| + 2
  }

  lemma FirstTurn(b: seq<char>, e: Entry, f: Entry, p: nat)
    requires Shadows(e, f, p) && HoldsLine(b, LineOf(e))
    ensures ThreeTokens(b) && Upsert([], Parsed(b).key, Parsed(b).rec) == [e] && FlagAt(Torn(b), p)
  {
    assert Parsed(b) == e by {
      ParsedLine(b, e);
    }
    TornKeepsFlag(b, e, Mapping(e), Decimal(e.rec.refcount), p);
  }

  lemma SecondTurn(b: seq<char>, e: Entry, f: Entry, p: nat)
    requires Shadows(e, f, p) && HoldsLine(b, Mapping(f)) && FlagAt(b, p)
    ensures ThreeTokens(b)
    ensures Upsert([e], Parsed(b).key, Parsed(b).rec) == [e, Entry(f.key, Record(f.rec.mapped, 1, true))]
  {
    FlagBehind(b, f);
    DeleteAbsent([e], f.key);
  }

  /** One turn: the line in the buffer is taken apart and recorded. */
  method RecordLine(dict: StateDict, buf: array<char>, ghost e: Entry, ghost f: Entry, ghost p: nat, ghost i: nat)
    requires Shadows(e, f, p) && i < 2 && Misread(dict.entries, buf[..], e, f, p, i)
    modifies dict, buf
    ensures i == 0 ==> dict.entries == [e] && FlagAt(buf[..], p)
    ensures i == 1 ==> dict.entries == [e, Entry(f.key, Record(f.rec.mapped, 1, true))]
  {
    if i == 0 {
      FirstTurn(buf[..], e, f, p);
    } else {
      SecondTurn(buf[..], e, f, p);
    }
    var r := ParseLine(buf);
    dict.Put(r.key, r.rec);
  }

  /** The loop over the state file, on a file whose second line is such a mapping: nobody asked
      for the interface, and it is recorded as explicit. */
  method ReadMisread(dict: StateDict, stream: Stream, ghost e: Entry, ghost f: Entry, ghost p: nat)
    requires dict.entries == [] && stream.rest == Text([LineOf(e), Mapping(f)]) && Shadows(e, f, p)
    modifies dict, stream
    ensures dict.entries == [e, Entry(f.key, Record(f.rec.mapped, 1, true))]
  {
    var buf := new char[BUFFER_LEN];
    ghost var lines := [LineOf(e), Mapping(f)];
    ghost var i := 0;
    EntryLines(e);
    EntryLines(f);
    assert lines[0..] == lines;
    var ok := ReadNext(buf, stream, lines);
    while ok
      invariant i <= 2 && ok == (i < 2) && Misread(dict.entries, buf[..], e, f, p, i)
      invariant ok ==> stream.rest == Text(lines[i + 1..])
      decreases 2 - i
    {
      RecordLine(dict, buf, e, f, p, i);
      ghost var torn := buf[..];
      assert i == 0 ==> lines[1..] == [Mapping(f)];
      assert i == 1 ==> lines[2..] == [];
      ok := ReadNext(buf, stream, lines[i + 1..]);
      if i == 0 {
        Kept(torn, buf[..], p);
      }
      i := i + 1;
    }
  }

  lemma Kept(b: seq<char>, c: seq<char>, p: nat)
    requires FlagAt(b, p) && |b| == |c| && b[p..] == c[p..]
    ensures FlagAt(c, p)
  {
    assert c[p..p + 8] == c[p..][..8] == b[p..][..8] == b[p..p + 8];
    assert c[p + 8] == c[p..][8] == b[p..][8];
  }

  /** There are such files. */
  method ReadAbc() returns (dict: StateDict)
    ensures fresh(dict)
    ensures dict.entries == [Entry("xy", Record("xy", 10, true)), Entry("abc", Record("abc", 1, true))]
  {
    ghost var e, f := Entry("xy", Record("xy", 10, true)), Entry("abc", Record("abc", 1, false));
    AbcText(e, f);
    var stream := new Stream("xy=xy 10 explicit\nabc=abc\n");
    dict := new StateDict([]);
    ReadMisread(dict, stream, e, f, 9);
  }

  lemma AbcText(e: Entry, f: Entry)
    requires e == Entry("xy", Record("xy", 10, true)) && f == Entry("abc", Record("abc", 1, false))
    ensures Shadows(e, f, 9)
    ensures Text([LineOf(e), Mapping(f)]) == "xy=xy 10 explicit\nabc=abc\n"
  {
    assert Decimal(1) == "1";
    assert Decimal(10) == Decimal(1) + [Digit(0)] == "10";
    assert Mapping(e) == "xy=xy" && Mapping(f) == "abc=abc";
    assert LineOf(e) == "xy=xy 10 explicit" && LineOf(f) == "abc=abc 1";
    var lines := [LineOf(e), Mapping(f)];
    assert lines[1..] == [Mapping(f)] && [Mapping(f)][1..] == [];
    assert Text([Mapping(f)]) == "abc=abc\n";
  }
}
