/** What a file means, line by line: strip comments, splice continuations, split. The reader
    does all three in one bounded scan. */
module LineReference {
  import opened LineReader
  import opened Sequences

  /** Comments removed up to the newline that ends them; a backslash protects what follows. */
  function Strip(t: string): string
    decreases |t|
  {
    if t == [] then []
    else if t[0] == '\\' then
      if |t| == 1 then t else t[..2] + Strip(t[2..])
    else if t[0] == '#' then Strip(SkipComment(t[1..]))
    else [t[0]] + Strip(t[1..])
  }

  /** Backslash-newline joined with the next line less its leading blanks; a protected hash
      sign vanishes; any other protected character keeps its backslash. */
  function Splice(t: string): string
    decreases |t|
  {
    if t == [] then []
    else if t[0] != '\\' then [t[0]] + Splice(t[1..])
    else if |t| == 1 then []
    else if t[1] == '\n' then Splice(TrimBlanks(t[2..]))
    else if t[1] == '#' then Splice(t[2..])
    else t[..2] + Splice(t[2..])
  }

  /** The lines of a text; after the last newline there is a line only if it has characters. */
  function Split(t: string): seq<string>
    decreases |t|
  {
    if t == [] then []
    else
      var n := LineLength(t);
      if n == |t| then [t] else [t[..n]] + Split(t[n + 1..])
  }

  function LineLength(t: string): (n: nat)
    ensures n <= |t| && (n < |t| ==> t[n] == '\n')
  {
    if t == [] || t[0] == '\n' then 0 else 1 + LineLength(t[1..])
  }

  function LogicalLines(t: string): seq<string> {
    Split(Splice(Strip(t)))
  }

  /** Everything that successive calls of the reader return. */
  function ReadAll(t: string, limit: nat): seq<string>
    requires limit > 0
    decreases |t|
  {
    var r := Scan(t, [], false, limit);
    if NothingRead(r) then []
    else
      ScanConsumes(t, [], false, limit);
      [Chomp(r.out)] + ReadAll(r.rest, limit)
  }

  /** A call that returns a line has read something. */
  lemma {:induction false} ScanConsumes(t: string, out: string, quoted: bool, limit: nat)
    ensures var r := Scan(t, out, quoted, limit);
            |r.rest| <= |t| && (|out| < limit && t != [] ==> |r.rest| < |t|)
    decreases |t|
  {
    if |out| < limit && t != [] {
      var c, r := t[0], t[1..];
      if c == '\\' && !quoted {
        ScanConsumes(r, out, true, limit);
      } else if c == '#' {
        if quoted {
          ScanConsumes(r, out, false, limit);
        }
      } else if c == '\n' {
        if quoted {
          ScanConsumes(TrimBlanks(r), out, false, limit);
        }
      } else if c == '\r' {
        if quoted {
          ScanConsumes(if r != [] && r[0] == '\n' then r[1..] else r, out + ['\n'], false, limit);
        }
      } else {
        ScanConsumes(r, out + (if quoted then ['\\', c] else [c]), false, limit);
      }
    }
  }

  // --- the single scan in one pass ---------------------------------------------------------

  /** Stripping and splicing together; `quoted` says that a backslash is pending. */
  function Clean(t: string, quoted: bool): string
    decreases |t|
  {
    if t == [] then []
    else if quoted then
      if t[0] == '\n' then Clean(TrimBlanks(t[1..]), false)
      else if t[0] == '#' then Clean(t[1..], false)
      else ['\\', t[0]] + Clean(t[1..], false)
    else if t[0] == '\\' then Clean(t[1..], true)
    else if t[0] == '#' then Clean(SkipComment(t[1..]), false)
    else [t[0]] + Clean(t[1..], false)
  }

  /** Comment removal does not look at blanks. */
  lemma {:induction false} StripTrim(t: string)
    ensures TrimBlanks(Strip(t)) == Strip(TrimBlanks(t))
    decreases |t|
  {
    if t != [] {
      if IsBlank(t[0]) {
        StripTrim(t[1..]);
        assert Strip(t)[1..] == Strip(t[1..]);
      } else if t[0] == '#' {
        StripComment(t[1..]);
      } else if t[0] == '\\' {
        assert Strip(t)[0] == '\\';
      }
    }
  }

  lemma {:induction false} StripComment(t: string)
    ensures TrimBlanks(Strip(SkipComment(t))) == Strip(SkipComment(t))
  {
    var e := SkipComment(t);
    if e != [] {
      assert Strip(e)[0] == '\n';
    }
  }

  lemma {:induction false} CleanIsSpliceStrip(t: string)
    ensures Clean(t, false) == Splice(Strip(t))
    decreases |t|
  {
    if t != [] {
      if t[0] == '\\' {
        if |t| > 1 {
          var s := Strip(t);
          assert s == t[..2] + Strip(t[2..]) && s[0] == '\\' && s[1] == t[1] && s[2..] == Strip(t[2..]);
          assert t[1..][1..] == t[2..];
          if t[1] == '\n' {
            StripTrim(t[2..]);
            CleanIsSpliceStrip(TrimBlanks(t[2..]));
          } else {
            CleanIsSpliceStrip(t[2..]);
            assert s[..2] == ['\\', t[1]];
          }
        }
      } else if t[0] == '#' {
        CleanIsSpliceStrip(SkipComment(t[1..]));
      } else {
        CleanIsSpliceStrip(t[1..]);
        assert Strip(t)[1..] == Strip(t[1..]);
      }
    }
  }

  // --- successive calls ---------------------------------------------------------------------

  ghost predicate NewlineEnded(t: string) {
    t == [] || t[|t| - 1] == '\n'
  }

  /** A text without carriage returns whose last line is terminated. */
  ghost predicate Plain(t: string) {
    '\r' !in t && NewlineEnded(t)
  }

  lemma {:induction false} SkipCommentPlain(t: string)
    requires Plain(t) && t != []
    ensures SkipComment(t) != [] && Plain(SkipComment(t)) && Plain(SkipComment(t)[1..])
  {
    if t[0] != '\n' {
      SkipCommentPlain(t[1..]);
    }
  }

  lemma {:induction false} TrimBlanksPlain(t: string)
    requires Plain(t)
    ensures Plain(TrimBlanks(t))
  {
    if t != [] && IsBlank(t[0]) {
      TrimBlanksPlain(t[1..]);
    }
  }

  /** One call reads exactly the next line of the cleaned text, if that fits. */
  ghost predicate ReadsLine(t: string, out: string, quoted: bool, limit: nat) {
    var r, c := Scan(t, out, quoted, limit), Clean(t, quoted);
    var n := LineLength(c);
    if n < |c| then
      && r.stop.Ended? && r.out == out + c[..n] + ['\n'] && Plain(r.rest) && Clean(r.rest, false) == c[n + 1..]
    else
      r == Scanned(out + c, [], Eof)
  }

  lemma ReadsStored(t: string, rest: string, out: string, more: string, quoted: bool, limit: nat)
    requires '\n' !in more && |out| < limit
    requires Scan(t, out, quoted, limit) == Scan(rest, out + more, false, limit)
    requires Clean(t, quoted) == more + Clean(rest, false)
    requires ReadsLine(rest, out + more, false, limit)
    ensures LineLength(Clean(t, quoted)) == |more| + LineLength(Clean(rest, false))
    ensures ReadsLine(t, out, quoted, limit)
  {
    StoredThen(out, more, Clean(rest, false));
  }

  lemma StoredThen(out: string, more: string, d: string)
    requires '\n' !in more
    ensures var n, c := LineLength(d), more + d;
            && LineLength(c) == |more| + n && |c| == |more| + |d|
            && (n < |d| ==> c[|more| + n + 1..] == d[n + 1..]
                            && (out + more) + d[..n] + ['\n'] == out + c[..|more| + n] + ['\n'])
            && (out + more) + d == out + c
  {
    LineLengthAfter(more, d);
    var n, c := LineLength(d), more + d;
    Reassociate(out, more, d);
    if n < |d| {
      Reassociate(out, more, d[..n]);
      TakeDrop(more, d, n);
    }
  }

  lemma {:induction false} LineLengthAfter(more: string, d: string)
    requires '\n' !in more
    ensures LineLength(more + d) == |more| + LineLength(d)
  {
    if more == [] {
      assert more + d == d;
    } else {
      assert (more + d)[1..] == more[1..] + d;
      LineLengthAfter(more[1..], d);
    }
  }

  lemma {:induction false} ScanReadsLine(t: string, out: string, quoted: bool, limit: nat)
    requires Plain(t) && |out| + LineLength(Clean(t, quoted)) < limit
    ensures ReadsLine(t, out, quoted, limit)
    decreases |t|
  {
    if t == [] {
      assert out + [] == out;
    } else {
      var c, r := t[0], t[1..];
      if !quoted && c == '\\' {
        ScanReadsLine(r, out, true, limit);
      } else if c == '#' {
        if quoted {
          ScanReadsLine(r, out, false, limit);
        } else {
          SkipCommentPlain(r);
          var e := SkipComment(r);
          assert Clean(e, false) == ['\n'] + Clean(e[1..], false);
          assert out + [] + ['\n'] == out + ['\n'];
        }
      } else if c == '\n' {
        if quoted {
          TrimBlanksPlain(r);
          ScanReadsLine(TrimBlanks(r), out, false, limit);
        } else {
          assert out + [] + ['\n'] == out + ['\n'];
        }
      } else {
        var more := if quoted then ['\\', c] else [c];
        LineLengthAfter(more, Clean(r, false));
        ScanReadsLine(r, out + more, false, limit);
        ReadsStored(t, r, out, more, quoted, limit);
      }
    }
  }

  lemma {:induction false} CleanKeepsOutReturns(t: string, quoted: bool)
    requires '\r' !in t
    ensures '\r' !in Clean(t, quoted)
    decreases |t|
  {
    if t != [] {
      SkipCommentInside(t[1..]);
      TrimBlanksInside(t[1..]);
      if quoted {
        CleanKeepsOutReturns(if t[0] == '\n' then TrimBlanks(t[1..]) else t[1..], false);
      } else if t[0] == '\\' {
        CleanKeepsOutReturns(t[1..], true);
      } else {
        CleanKeepsOutReturns(if t[0] == '#' then SkipComment(t[1..]) else t[1..], false);
      }
    }
  }

  lemma {:induction false} SkipCommentInside(t: string)
    ensures forall c :: c in SkipComment(t) ==> c in t
  {
    if t != [] && t[0] != '\n' {
      SkipCommentInside(t[1..]);
    }
  }

  lemma {:induction false} TrimBlanksInside(t: string)
    ensures forall c :: c in TrimBlanks(t) ==> c in t
  {
    if t != [] && IsBlank(t[0]) {
      TrimBlanksInside(t[1..]);
    }
  }

  /** For a text without carriage returns whose lines are terminated and fit the buffer,
      successive calls of the reader return the logical lines, no more and no less. */
  lemma {:induction false} ReadAllIsLogicalLines(t: string, limit: nat)
    requires Plain(t) && limit > 0 && forall l :: l in LogicalLines(t) ==> |l| < limit
    ensures ReadAll(t, limit) == LogicalLines(t)
    decreases |t|
  {
    CleanIsSpliceStrip(t);
    var c := Clean(t, false);
    FirstLineFits(c, limit);
    if LineLength(c) < |c| {
      ReadsMore(t, limit);
      var rest := Scan(t, [], false, limit).rest;
      CleanIsSpliceStrip(rest);
      ReadAllIsLogicalLines(rest, limit);
    } else {
      ReadsLast(t, limit);
    }
  }

  /** A call that ends at a newline returns the first line and leaves the others. */
  lemma ReadsMore(t: string, limit: nat)
    requires Plain(t) && LineLength(Clean(t, false)) < limit && LineLength(Clean(t, false)) < |Clean(t, false)|
    ensures var c, rest := Clean(t, false), Scan(t, [], false, limit).rest;
            var n := LineLength(c);
            && Plain(rest) && |rest| < |t| && Clean(rest, false) == c[n + 1..]
            && ReadAll(t, limit) == [c[..n]] + ReadAll(rest, limit)
  {
    var c := Clean(t, false);
    var n := LineLength(c);
    ScanReadsLine(t, [], false, limit);
    ScanConsumes(t, [], false, limit);
    ChompLine(t, c[..n]);
    assert [] + c[..n] + ['\n'] == c[..n] + ['\n'];
  }

  /** A call that meets the end of the file returns what there is, if anything. */
  lemma ReadsLast(t: string, limit: nat)
    requires Plain(t) && LineLength(Clean(t, false)) < limit && LineLength(Clean(t, false)) == |Clean(t, false)|
    ensures ReadAll(t, limit) == Split(Clean(t, false))
  {
    var c := Clean(t, false);
    ScanReadsLine(t, [], false, limit);
    assert [] + c == c;
    NoNewline(c);
    assert Scan(t, [], false, limit) == Scanned(c, [], Eof) && Chomp(c) == c;
    assert ReadAll([], limit) == [];
  }

  lemma FirstLineFits(c: string, limit: nat)
    requires limit > 0 && forall l :: l in Split(c) ==> |l| < limit
    ensures LineLength(c) < limit
    ensures LineLength(c) < |c| ==> forall l :: l in Split(c[LineLength(c) + 1..]) ==> |l| < limit
  {
    var n, lines := LineLength(c), Split(c);
    if n < |c| {
      assert lines == [c[..n]] + Split(c[n + 1..]);
      assert lines[0] in lines && forall l :: l in Split(c[n + 1..]) ==> l in lines;
    } else if c != [] {
      assert lines == [c];
      assert c in lines;
    }
  }

  lemma ChompLine(t: string, line: string)
    requires '\r' !in t && line <= Clean(t, false)
    ensures Chomp(line + ['\n']) == line
  {
    CleanKeepsOutReturns(t, false);
    assert (line + ['\n'])[..|line|] == line;
    assert line != [] ==> line[|line| - 1] == Clean(t, false)[|line| - 1];
  }

  lemma {:induction false} NoNewline(c: string)
    ensures LineLength(c) == |c| ==> '\n' !in c
  {
    if c != [] {
      NoNewline(c[1..]);
    }
  }
}
