/** How the line reader treats carriage returns, ends of files, and lines that do not fit. */
module LineEnds {
  import opened LineReader
  import opened LineReference

  // --- carriage returns --------------------------------------------------------------------

  /** What follows a carriage return, less the newline that belongs to it. */
  function AfterReturn(r: string): string {
    if r != [] && r[0] == '\n' then r[1..] else r
  }

  /** Every carriage return, with the newline behind it if there is one, made a newline. */
  function Unix(t: string): string
    decreases |t|
  {
    if t == [] then []
    else if t[0] == '\r' then ['\n'] + Unix(AfterReturn(t[1..]))
    else [t[0]] + Unix(t[1..])
  }

  /** A carriage return without a newline behind it. */
  predicate LoneReturn(t: string, i: nat) {
    i < |t| && t[i] == '\r' && !(i + 1 < |t| && t[i + 1] == '\n')
  }

  /** No carriage return directly behind a backslash; and no lone one behind a hash sign on the
      same line. */
  ghost predicate PlainReturns(t: string) {
    && (forall i :: 0 <= i < |t| - 1 && t[i] == '\\' ==> t[i + 1] != '\r')
    && forall i, j :: 0 <= i < j < |t| && t[i] == '#' && LoneReturn(t, j) ==> '\n' in t[i..j]
  }

  lemma PlainSuffix(t: string, k: nat)
    requires PlainReturns(t) && k <= |t|
    ensures PlainReturns(t[k..])
  {
    var u := t[k..];
    forall i | 0 <= i < |u| - 1 && u[i] == '\\'
      ensures u[i + 1] != '\r'
    {
      assert t[k + i] == u[i] && t[k + i + 1] == u[i + 1];
    }
    forall i, j | 0 <= i < j < |u| && u[i] == '#' && LoneReturn(u, j)
      ensures '\n' in u[i..j]
    {
      assert t[k + i] == u[i] && LoneReturn(t, k + j);
      assert t[k + i..k + j] == u[i..j];
    }
  }

  lemma {:induction false} TrimSuffix(t: string)
    ensures TrimBlanks(t) == t[|t| - |TrimBlanks(t)|..]
  {
    if t != [] && IsBlank(t[0]) {
      TrimSuffix(t[1..]);
    }
  }

  lemma {:induction false} TrimUnix(t: string)
    ensures Unix(TrimBlanks(t)) == TrimBlanks(Unix(t))
  {
    if t != [] && IsBlank(t[0]) {
      TrimUnix(t[1..]);
      assert Unix(t)[1..] == Unix(t[1..]);
    }
  }

  lemma {:induction false} CommentSuffix(t: string)
    ensures SkipComment(t) == t[|t| - |SkipComment(t)|..]
  {
    if t != [] && t[0] != '\n' {
      CommentSuffix(t[1..]);
    }
  }

  /** Up to the first newline no lone carriage return. */
  ghost predicate NoneLone(t: string) {
    forall j :: 0 <= j < |t| && LoneReturn(t, j) ==> '\n' in t[..j]
  }

  /** A comment without lone carriage returns ends at the same place. */
  lemma {:induction false} CommentUnix(t: string)
    requires NoneLone(t)
    ensures Unix(SkipComment(t)) == SkipComment(Unix(t))
  {
    if t != [] && t[0] != '\n' {
      if t[0] == '\r' {
        assert !LoneReturn(t, 0);
        assert Unix(t) == ['\n'] + Unix(t[2..]);
        assert t[1..][0] == '\n' && t[1..][1..] == t[2..];
        assert Unix(t[1..]) == ['\n'] + Unix(t[2..]);
      } else {
        assert NoneLone(t[1..]) by {
          NoneLoneNext(t);
        }
        CommentUnix(t[1..]);
        assert Unix(t)[1..] == Unix(t[1..]);
      }
    }
  }

  lemma NoneLoneNext(t: string)
    requires NoneLone(t) && t != [] && t[0] != '\n'
    ensures NoneLone(t[1..])
  {
    var u := t[1..];
    forall j | 0 <= j < |u| && LoneReturn(u, j)
      ensures '\n' in u[..j]
    {
      assert LoneReturn(t, j + 1);
      assert t[..j + 1] == [t[0]] + u[..j];
    }
  }

  lemma BehindHash(t: string)
    requires PlainReturns(t) && t != [] && t[0] == '#'
    ensures NoneLone(t[1..])
  {
    var u := t[1..];
    forall j | 0 <= j < |u| && LoneReturn(u, j)
      ensures '\n' in u[..j]
    {
      assert LoneReturn(t, j + 1) && '\n' in t[0..j + 1];
      assert t[0..j + 1] == [t[0]] + u[..j];
    }
  }

  /** The rest of a scan read with unix line ends. */
  function UnixRest(r: Scanned): Scanned {
    r.(rest := Unix(r.rest))
  }

  /** One call of the reader does the same on both texts. A pending backslash must not be followed
      by a carriage return. */
  lemma {:induction false} ScanUnix(t: string, out: string, quoted: bool, limit: nat)
    requires PlainReturns(t) && (quoted && t != [] ==> t[0] != '\r')
    ensures Scan(Unix(t), out, quoted, limit) == UnixRest(Scan(t, out, quoted, limit))
    ensures PlainReturns(Scan(t, out, quoted, limit).rest)
    decreases |t|
  {
    if |out| < limit && t != [] {
      var c, r := t[0], t[1..];
      PlainSuffix(t, 1);
      if c == '\r' {
        ReturnUnix(t, out, limit);
      } else {
        assert Unix(t)[0] == c && Unix(t)[1..] == Unix(r);
        if c == '\\' && !quoted {
          ScanUnix(r, out, true, limit);
        } else if c == '#' {
          if quoted {
            ScanUnix(r, out, false, limit);
          } else {
            HashUnix(t, out, limit);
          }
        } else if c == '\n' {
          if quoted {
            TrimSuffix(r);
            TrimUnix(r);
            PlainSuffix(r, |r| - |TrimBlanks(r)|);
            ScanUnix(TrimBlanks(r), out, false, limit);
          }
        } else {
          ScanUnix(r, out + (if quoted then ['\\', c] else [c]), false, limit);
        }
      }
    }
  }

  lemma ReturnUnix(t: string, out: string, limit: nat)
    requires PlainReturns(t) && t != [] && t[0] == '\r' && |out| < limit
    ensures Scan(Unix(t), out, false, limit) == UnixRest(Scan(t, out, false, limit))
    ensures PlainReturns(Scan(t, out, false, limit).rest)
  {
    var r := t[1..];
    PlainSuffix(t, 1);
    if r != [] && r[0] == '\n' {
      PlainSuffix(r, 1);
    }
    assert Unix(t) == ['\n'] + Unix(AfterReturn(r));
    assert Unix(t)[1..] == Unix(AfterReturn(r));
  }

  lemma HashUnix(t: string, out: string, limit: nat)
    requires PlainReturns(t) && t != [] && t[0] == '#' && |out| < limit
    ensures Scan(Unix(t), out, false, limit) == UnixRest(Scan(t, out, false, limit))
    ensures PlainReturns(Scan(t, out, false, limit).rest)
  {
    var r := t[1..];
    var e := SkipComment(r);
    BehindHash(t);
    CommentUnix(r);
    CommentSuffix(r);
    assert Unix(t) == ['#'] + Unix(r) && Unix(t)[1..] == Unix(r);
    PlainSuffix(t, 1);
    PlainSuffix(r, |r| - |e|);
    if e != [] {
      PlainSuffix(e, 1);
      assert Unix(e) == ['\n'] + Unix(e[1..]) && Unix(e)[1..] == Unix(e[1..]);
    }
  }

  /** Successive calls return the same lines for a text and for the text with unix line ends. */
  lemma {:induction false} ReadAllUnix(t: string, limit: nat)
    requires PlainReturns(t) && limit > 0
    ensures ReadAll(t, limit) == ReadAll(Unix(t), limit)
    decreases |t|
  {
    ScanUnix(t, [], false, limit);
    var r := Scan(t, [], false, limit);
    if !NothingRead(r) {
      ScanConsumes(t, [], false, limit);
      if t != [] {
        ReadAllUnix(r.rest, limit);
      }
    }
  }

  lemma {:induction false} UnixHasNone(t: string)
    ensures '\r' !in Unix(t)
    decreases |t|
  {
    if t != [] {
      UnixHasNone(if t[0] == '\r' then AfterReturn(t[1..]) else t[1..]);
    }
  }

  /** So the lines read from a text with any line ends are the logical lines of the text with unix
      line ends, if its last line is terminated and the lines fit. */
  lemma ReadAllReturns(t: string, limit: nat)
    requires PlainReturns(t) && NewlineEnded(Unix(t)) && limit > 0
    requires forall l :: l in LogicalLines(Unix(t)) ==> |l| < limit
    ensures ReadAll(t, limit) == LogicalLines(Unix(t))
  {
    UnixHasNone(t);
    ReadAllUnix(t, limit);
    ReadAllIsLogicalLines(Unix(t), limit);
  }

  // --- what that excludes ------------------------------------------------------------------

  /** What a backslash does to the character behind it. A newline goes, with the blanks that follow,
      and so does a hash sign with its backslash; a carriage return, with or without its newline,
      puts a newline into the line, which goes on; before all others the backslash stays. */
  lemma BehindBackslash(c: char, more: string, out: string, limit: nat)
    requires |out| < limit
    ensures Scan(['\\', c] + more, out, false, limit)
            == if c == '\n' then Scan(TrimBlanks(more), out, false, limit)
               else if c == '#' then Scan(more, out, false, limit)
               else if c == '\r' then Scan(AfterReturn(more), out + ['\n'], false, limit)
               else Scan(more, out + ['\\', c], false, limit)
  {
    var t := ['\\', c] + more;
    assert t[1..] == [c] + more && t[1..][1..] == more;
  }

  /** The blanks at the front of a continued line are blanks and tabs. */
  lemma {:induction false} TrimmedBlanks(blanks: string, more: string)
    requires (forall c :: c in blanks ==> c == ' ' || c == '\t') && (more == [] || (more[0] != ' ' && more[0] != '\t'))
    ensures TrimBlanks(blanks + more) == more
  {
    if blanks == [] {
      assert blanks + more == more;
    } else {
      assert blanks[0] in blanks && forall c :: c in blanks[1..] ==> c in blanks;
      assert (blanks + more)[0] == blanks[0] && (blanks + more)[1..] == blanks[1..] + more;
      TrimmedBlanks(blanks[1..], more);
    }
  }

  /** A lone carriage return does not end a comment. */
  lemma {:induction false} CommentGoesOn(c: string, more: string)
    requires '\n' !in c
    ensures SkipComment(c + more) == SkipComment(more)
  {
    if c == [] {
      assert c + more == more;
    } else {
      assert (c + more)[1..] == c[1..] + more;
      CommentGoesOn(c[1..], more);
    }
  }

  // --- characters that stand for themselves ------------------------------------------------

  predicate Literal(c: char) {
    c != '\\' && c != '#' && c != '\n' && c != '\r'
  }

  predicate Literals(l: string) {
    forall c :: c in l ==> Literal(c)
  }

  /** Such characters are stored as they are, while there is room. */
  lemma {:induction false} ScanLiterals(l: string, more: string, out: string, limit: nat)
    requires Literals(l) && |out| + |l| <= limit
    ensures Scan(l + more, out, false, limit) == Scan(more, out + l, false, limit)
    decreases |l|
  {
    if l == [] {
      assert l + more == more && out + l == out;
    } else {
      assert l[0] in l && (l + more)[0] == l[0] && (l + more)[1..] == l[1..] + more;
      assert (out + [l[0]]) + l[1..] == out + l;
      ScanLiterals(l[1..], more, out + [l[0]], limit);
    }
  }

  lemma LiteralsChomp(l: string)
    requires Literals(l)
    ensures Chomp(l) == l
  {
    assert l != [] ==> l[|l| - 1] in l;
  }

  /** A line that does not fit is cut at the limit, and its rest is the next line. */
  lemma LongLine(l: string, more: string, limit: nat)
    requires Literals(l) && |l| == limit > 0
    ensures Scan(l + more, [], false, limit) == Scanned(l, more, Full)
    ensures ReadAll(l + more, limit) == [l] + ReadAll(more, limit)
  {
    assert Scan(l + more, [], false, limit) == Scanned(l, more, Full) by {
      ScanLiterals(l, more, [], limit);
      assert [] + l == l;
    }
    LiteralsChomp(l);
    ScanConsumes(l + more, [], false, limit);
  }

  /** A last line without a newline is returned as it is. */
  lemma LastLine(l: string, limit: nat)
    requires Literals(l) && 0 < |l| < limit
    ensures Scan(l, [], false, limit) == Scanned(l, [], Eof) && ReadAll(l, limit) == [l]
  {
    ScanLiterals(l, [], [], limit);
    assert l + [] == l && [] + l == l;
    LiteralsChomp(l);
    ScanConsumes(l, [], false, limit);
    assert ReadAll([], limit) == [];
  }

  /** A comment that runs into the end of the file leaves the byte that stands for it. */
  lemma CommentAtEnd(l: string, c: string, limit: nat)
    requires Literals(l) && |l| < limit && '\n' !in c
    ensures Scan(l + ['#'] + c, [], false, limit) == Scanned(l + ['\U{FF}'], [], Eof)
  {
    assert l + ['#'] + c == l + (['#'] + c);
    ScanLiterals(l, ['#'] + c, [], limit);
    assert [] + l == l && (['#'] + c)[1..] == c && c + [] == c;
    CommentGoesOn(c, []);
  }
}
