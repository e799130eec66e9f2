/** What a line of the state file means, whoever wrote it: its words are the mapping, the count and
    the flag. */
module StateFields {
  import opened Worlds
  import opened Words
  import opened Tokenizer
  import opened StateFile
  import opened StateLines

  // --- counts ------------------------------------------------------------------------------

  function Zeros(k: nat): string {
    seq(k, i => '0')
  }

  lemma {:induction false} DigitsOfZeros(k: nat, rest: string)
    ensures Digits(Zeros(k) + rest, 0) == Digits(rest, 0)
  {
    if k == 0 {
      assert Zeros(0) + rest == rest;
    } else {
      assert (Zeros(k) + rest)[0] == '0' && (Zeros(k) + rest)[1..] == Zeros(k - 1) + rest;
      DigitsOfZeros(k - 1, rest);
    }
  }

  /** A decimal number, with leading zeros, and something else behind it. */
  function Number(zeros: nat, n: nat, junk: string): string {
    Zeros(zeros) + (Decimal(n) + junk)
  }

  lemma DigitsOfNumber(zeros: nat, n: nat, junk: string)
    requires junk == [] || !IsDigit(junk[0])
    ensures Digits(Number(zeros, n, junk), 0) == n
    ensures Number(zeros, n, junk) != [] && IsDigit(Number(zeros, n, junk)[0])
  {
    DigitsOfZeros(zeros, Decimal(n) + junk);
    DigitsOfDecimal(n);
    DigitsAppend(Decimal(n), junk, 0);
    assert Decimal(n)[0] in Decimal(n);
  }

  /** The count that a token means: the number at its front, if that is neither zero nor too
      large; a minus sign takes it from the word size; everything else means one. */
  lemma CountOfNumber(zeros: nat, n: nat, junk: string)
    requires junk == [] || !IsDigit(junk[0])
    ensures var token, count := Number(zeros, n, junk), if n == 0 || n >= ULONG_MAX then 1 else n;
            && CountOf(token) == count && CountOf(['+'] + token) == count
            && CountOf(['-'] + token) == if n <= 1 || n > ULONG_MAX then 1 else ULONG_MAX + 1 - n
  {
    DigitsOfNumber(zeros, n, junk);
    CountSigned(Number(zeros, n, junk), n);
  }

  lemma CountSigned(token: string, n: nat)
    requires token != [] && IsDigit(token[0]) && Digits(token, 0) == n
    ensures var count := if n == 0 || n >= ULONG_MAX then 1 else n;
            && CountOf(token) == count && CountOf(['+'] + token) == count
            && CountOf(['-'] + token) == if n <= 1 || n > ULONG_MAX then 1 else ULONG_MAX + 1 - n
  {
    assert (['+'] + token)[1..] == token && (['-'] + token)[1..] == token;
    assert Strtoul(token) == Strtoul(['+'] + token) == if n > ULONG_MAX then ULONG_MAX else n;
    assert Strtoul(['-'] + token) == if n > ULONG_MAX then ULONG_MAX else (ULONG_MAX + 1 - n) % (ULONG_MAX + 1);
  }

  lemma CountOfOther(token: string)
    requires token == [] || (!IsDigit(token[0]) && token[0] != '+' && token[0] != '-')
    ensures CountOf(token) == 1
  {
  }

  /** No token makes a record that is not counted. */
  lemma CountInside(token: string)
    ensures 0 < CountOf(token) < ULONG_MAX
  {
  }

  // --- names -------------------------------------------------------------------------------

  lemma {:induction false} IndexOfNone(s: string, c: char)
    requires c !in s
    ensures IndexOf(s, c) == |s|
  {
    if s != [] {
      assert s[0] in s;
      IndexOfNone(s[1..], c);
    }
  }

  lemma {:induction false} BlanksBefore(s: string)
    ensures '=' !in s[..|s| - |SkipSpaces(s)|] && SkipSpaces(s) == s[|s| - |SkipSpaces(s)|..]
  {
    if s != [] && IsSpace(s[0]) {
      BlanksBefore(s[1..]);
      assert s[..|s| - |SkipSpaces(s)|] == [s[0]] + s[1..][..|s[1..]| - |SkipSpaces(s)|];
    }
  }

  /** A mapping without an equals sign maps the name to itself. */
  lemma OneName(b: seq<char>, blanks: string, w: string)
    requires Has(b, 0, blanks + w) && |blanks| + |w| < |b| && b[|blanks| + |w|] == NUL && NUL !in blanks + w
    requires '=' !in blanks && '=' !in w
    ensures NamesOf(b, |blanks|) == (w, w)
  {
    StrIs(b, 0, blanks + w);
    IndexOfNone(blanks + w, '=');
    assert b[|blanks|..|blanks| + |w|] == b[0..|blanks| + |w|][|blanks|..] == w;
    StrIs(b, |blanks|, w);
  }

  /** The first equals sign parts the key from the name it is mapped to. */
  lemma TwoNames(b: seq<char>, blanks: string, key: string, mapped: string)
    requires Has(b, 0, blanks + key + ['='] + mapped) && NUL !in blanks + key + ['='] + mapped
    requires |blanks| + |key| + 1 + |mapped| < |b| && b[|blanks| + |key| + 1 + |mapped|] == NUL
    requires '=' !in blanks && '=' !in key
    ensures NamesOf(b, |blanks|) == (key, mapped)
  {
    var q := |blanks| + |key|;
    StrIs(b, 0, blanks + key + ['='] + mapped);
    IndexOfAfter(blanks + key, '=', mapped);
    PartsAt(b, blanks, key, mapped);
    StrIs(b[q := NUL], |blanks|, key);
    StrIs(b[q := NUL], q + 1, mapped);
  }

  lemma PartsAt(b: seq<char>, blanks: string, key: string, mapped: string)
    requires Has(b, 0, blanks + key + ['='] + mapped) && |blanks| + |key| + 1 + |mapped| < |b|
    ensures var q := |blanks| + |key|; Has(b[q := NUL], |blanks|, key) && Has(b[q := NUL], q + 1, mapped)
  {
    var s, q := blanks + key + ['='] + mapped, |blanks| + |key|;
    assert forall i :: 0 <= i < |s| ==> b[i] == b[0..|s|][i] == s[i];
    assert forall i :: 0 <= i < |key| ==> b[q := NUL][|blanks|..q][i] == s[|blanks| + i] == key[i];
    assert forall i :: 0 <= i < |mapped| ==> b[q := NUL][q + 1..|s|][i] == s[q + 1 + i] == mapped[i];
  }

  // --- cutting -----------------------------------------------------------------------------

  lemma {:induction false} SameBehind(b: seq<char>, c: seq<char>, p: nat)
    requires |b| == |c| && p <= |b| && b[p..] == c[p..]
    ensures StrAt(b, p) == StrAt(c, p)
    decreases |b| - p
  {
    if p < |b| {
      assert b[p] == b[p..][0] == c[p..][0] == c[p];
      assert b[p + 1..] == b[p..][1..] == c[p..][1..] == c[p + 1..];
      SameBehind(b, c, p + 1);
    }
  }

  /** One cut: the token is the first word; what is left behind it are the other words; nothing in
      front of it changes. */
  lemma Cut(b: seq<char>, p: nat)
    requires p < |b| && Terminated(b, p)
    ensures CanCut(b, p)
    ensures var s, r := StrAt(b, p), Next(b, p);
            && StrAt(r.b, r.start) == FirstWord(s) && p <= r.start < r.next <= p + |s| + 1
            && |r.b| == |b| && r.b[r.next - 1] == NUL && r.b[..r.next - 1] == b[..r.next - 1]
            && r.b[r.next..] == b[r.next..]
            && r.next == p + FirstWordEnd(s) + 1
  {
    TokenIs(b, p);
    var e := WordEnd(b, p);
    assert b[e := NUL][..e] == b[..e] && b[e := NUL][e + 1..] == b[e + 1..];
  }

  /** What is left inside the string behind its first word. */
  lemma Rest(b: seq<char>, p: nat)
    requires p < |b| && Terminated(b, p) && FirstWordEnd(StrAt(b, p)) < |StrAt(b, p)|
    ensures CanCut(b, p)
    ensures var s, r := StrAt(b, p), Next(b, p);
            StrAt(r.b, r.next) == s[FirstWordEnd(s) + 1..] && r.next + |StrAt(r.b, r.next)| == p + |s|
  {
    Cut(b, p);
    var s, r := StrAt(b, p), Next(b, p);
    SameBehind(b, r.b, r.next);
    StrAtSuffix(b, p, FirstWordEnd(s) + 1);
  }

  /** The words of a string are its first word and those behind it. */
  lemma FirstThenRest(s: string)
    ensures var rest := if FirstWordEnd(s) < |s| then s[FirstWordEnd(s) + 1..] else [];
            WordsOf(s) == if FirstWord(s) == [] then [] else [FirstWord(s)] + WordsOf(rest)
    ensures FirstWord(s) == [] ==> FirstWordEnd(s) == |s|
  {
    SkippedSuffix(s);
    var t := SkipSpaces(s);
    if t != [] {
      WordThenRest(t);
      assert FirstWordEnd(s) < |s| ==> t[WordLength(t) + 1..] == s[FirstWordEnd(s) + 1..];
    }
  }

  // --- lines -------------------------------------------------------------------------------

  function Field(words: seq<string>, i: nat): string {
    if i < |words| then words[i] else []
  }

  /** Names of the first field. */
  function NamesIn(w: string): (string, string) {
    var eq := IndexOf(w, '=');
    if eq == |w| then (w, w) else (w[..eq], w[eq + 1..])
  }

  lemma NamesCut(b: seq<char>, l: string)
    requires HoldsLine(b, l) && NUL !in l
    ensures CanCut(b, 0) && NamesOf(Next(b, 0).b, Next(b, 0).start) == NamesIn(FirstWord(l))
  {
    LineStr(b, l);
    Cut(b, 0);
    var p := |l| - |SkipSpaces(l)|;
    FirstAt(b, l, Next(b, 0).b, FirstWordEnd(l));
    assert '=' !in l[..p] by {
      BlanksBefore(l);
    }
    assert Next(b, 0).start == p;
    NamesAt(Next(b, 0).b, l[..p], FirstWord(l));
  }

  /** The first word stands behind its blanks, also when it is cut off. */
  lemma FirstAt(b: seq<char>, l: string, c: seq<char>, e: nat)
    requires HoldsLine(b, l) && e == FirstWordEnd(l) && |c| == |b| && c[..e] == b[..e]
    ensures var s := l[..|l| - |SkipSpaces(l)|] + FirstWord(l); Has(c, 0, s) && |s| == e && s == l[..e]
  {
    BlanksBefore(l);
    assert l[..e] == b[..|l|][..e] == b[..e];
    assert c[0..e] == c[..e];
  }

  lemma NamesAt(b: seq<char>, blanks: string, w: string)
    requires Has(b, 0, blanks + w) && |blanks| + |w| < |b| && b[|blanks| + |w|] == NUL && NUL !in blanks + w
    requires '=' !in blanks
    ensures NamesOf(b, |blanks|) == NamesIn(w)
  {
    var eq := IndexOf(w, '=');
    if eq == |w| {
      NoneBefore(w, '=');
      assert w[..eq] == w;
      OneName(b, blanks, w);
    } else {
      NoneBefore(w, '=');
      assert w == w[..eq] + ['='] + w[eq + 1..];
      assert blanks + w == blanks + w[..eq] + ['='] + w[eq + 1..];
      TwoNames(b, blanks, w[..eq], w[eq + 1..]);
    }
  }

  lemma {:induction false} NoneBefore(s: string, c: char)
    ensures c !in s[..IndexOf(s, c)]
  {
    if s != [] && s[0] != c {
      NoneBefore(s[1..], c);
      assert s[..IndexOf(s, c)] == [s[0]] + s[1..][..IndexOf(s[1..], c)];
    }
  }

  function BehindFirst(s: string): string {
    if FirstWordEnd(s) < |s| then s[FirstWordEnd(s) + 1..] else []
  }

  lemma FieldsCons(s: string)
    ensures Field(WordsOf(s), 0) == FirstWord(s)
    ensures forall i: nat :: Field(WordsOf(s), i + 1) == Field(WordsOf(BehindFirst(s)), i)
  {
    FirstThenRest(s);
    assert FirstWord(s) == [] ==> BehindFirst(s) == [];
  }

  /** One cut in a string with two terminators behind it leaves what is behind its first word. */
  lemma InnerCut(b: seq<char>, p: nat, end: nat)
    requires p + |StrAt(b, p)| == end && end + 1 < |b| && b[end] == NUL && b[end + 1] == NUL
    ensures CanCut(b, p)
    ensures var s, r := StrAt(b, p), Next(b, p);
            StrAt(r.b, r.next) == BehindFirst(s) && r.next + |BehindFirst(s)| < |b|
  {
    Cut(b, p);
    var s, r := StrAt(b, p), Next(b, p);
    if FirstWordEnd(s) < |s| {
      Rest(b, p);
    } else {
      assert r.b[end + 1] == r.b[r.next..][0] == b[r.next..][0];
    }
  }

  /** The second and the third cut of a line that goes on behind its first word. */
  lemma LaterCuts(b: seq<char>, p: nat, rest: string, end: nat)
    requires end + 1 < |b| && StrAt(b, p) == rest && p + |rest| == end && b[end] == NUL && b[end + 1] == NUL
    ensures CanCut(b, p)
    ensures var t2 := Next(b, p);
            && CanCut(t2.b, t2.next)
            && var t3 := Next(t2.b, t2.next);
               && StrAt(t3.b, t2.start) == Field(WordsOf(rest), 0) && StrAt(t3.b, t3.start) == Field(WordsOf(rest), 1)
               && |t3.b| == |b| && t3.b[..p] == b[..p]
  {
    InnerCut(b, p, end);
    Cut(b, p);
    var t2 := Next(b, p);
    Cut(t2.b, t2.next);
    FieldsCons(rest);
    FieldsCons(BehindFirst(rest));
    LaterKeeps(b, t2, Next(t2.b, t2.next), p);
  }

  /** Cuts further on do not change what was cut. */
  lemma LaterKeeps(b: seq<char>, t2: Token, t3: Token, p: nat)
    requires p <= t2.start < t2.next < t3.next <= |b| == |t2.b| == |t3.b| && t2.b[t2.next - 1] == NUL
    requires t2.b[..t2.next - 1] == b[..t2.next - 1] && t3.b[..t3.next - 1] == t2.b[..t3.next - 1]
    ensures StrAt(t3.b, t2.start) == StrAt(t2.b, t2.start) && t3.b[..p] == b[..p]
  {
    assert t3.b[..t2.next] == t3.b[..t3.next - 1][..t2.next] == t2.b[..t2.next];
    SameStr(t2.b, t3.b, t2.next, t2.start);
    assert t3.b[..p] == t3.b[..t2.next][..p] == t2.b[..t2.next][..p] == t2.b[..t2.next - 1][..p] == b[..p];
  }

  /** A line that goes on behind its first word means what its words say: the first the names, the
      second the count, the third the flag; further ones nothing. */
  lemma LineMeans(b: seq<char>, l: string)
    requires HoldsLine(b, l) && NUL !in l && !Bare(l)
    ensures ThreeTokens(b)
    ensures var words, names := WordsOf(l), NamesIn(Field(WordsOf(l), 0));
            Parsed(b) == Entry(names.0, Record(names.1, CountOf(Field(words, 1)), Field(words, 2) == "explicit"))
  {
    NamesCut(b, l);
    FieldsCons(l);
    FirstCut(b, l);
    var t1 := Next(b, 0);
    LaterCuts(t1.b, t1.next, BehindFirst(l), |l|);
    var t2 := Next(t1.b, t1.next);
    FrontNames(t1.b, Next(t2.b, t2.next).b, t1.next, t1.start);
  }

  lemma FirstCut(b: seq<char>, l: string)
    requires HoldsLine(b, l) && NUL !in l && !Bare(l)
    ensures CanCut(b, 0)
    ensures var t1 := Next(b, 0);
            && t1.start < t1.next && |t1.b| == |b| && t1.b[t1.next - 1] == NUL
            && StrAt(t1.b, t1.next) == BehindFirst(l) && t1.next + |BehindFirst(l)| == |l|
            && t1.b[|l|] == NUL && t1.b[|l| + 1] == NUL
  {
    LineStr(b, l);
    Cut(b, 0);
    Rest(b, 0);
  }

  lemma FrontNames(b: seq<char>, c: seq<char>, n: nat, p: nat)
    requires SameFront(b, c, n) && p < n
    ensures NamesOf(b, p) == NamesOf(c, p)
  {
    SameSplit(b, c, n, p, p, p);
    assert ParsedFrom(b, p, p, p).key == NamesOf(b, p).0 && ParsedFrom(b, p, p, p).rec.mapped == NamesOf(b, p).1;
    assert ParsedFrom(c, p, p, p).key == NamesOf(c, p).0 && ParsedFrom(c, p, p, p).rec.mapped == NamesOf(c, p).1;
  }

  /** A bare line: its names are those of its word. */
  lemma BareNames(b: seq<char>, l: string)
    requires HoldsLine(b, l) && NUL !in l && Bare(l) && ThreeTokens(b)
    ensures (Parsed(b).key, Parsed(b).rec.mapped) == NamesIn(FirstWord(l))
  {
    BareCuts(b, l);
    NamesCut(b, l);
    var t1 := Next(b, 0);
    Cut(b, |l| + 2);
    var t3 := Next(b, |l| + 2);
    assert SameFront(t1.b, t3.b, |l| + 1);
    FrontNames(t1.b, t3.b, |l| + 1, t1.start);
    assert Parsed(b) == ParsedFrom(t3.b, t1.start, |l| + 1, t3.start);
  }
}
