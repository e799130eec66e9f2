/** The tokenizer that cuts a buffer in place, and the loop over its tokens. */
module Tokenizer {
  import opened Sequences
  import opened Words

  const BUFFER_LEN := 4096

  /** The C string that starts at p. */
  function StrAt(b: seq<char>, p: nat): (r: string)
    ensures p + |r| <= |b| || r == []
    decreases |b| - p
  {
    if p < |b| && b[p] != NUL then [b[p]] + StrAt(b, p + 1) else []
  }

  lemma {:induction false} StrAtChars(b: seq<char>, p: nat)
    requires p <= |b|
    ensures b[p..p + |StrAt(b, p)|] == StrAt(b, p) && NUL !in StrAt(b, p)
    ensures p + |StrAt(b, p)| < |b| ==> b[p + |StrAt(b, p)|] == NUL
    decreases |b| - p
  {
    if p < |b| && b[p] != NUL {
      StrAtChars(b, p + 1);
      var rest := StrAt(b, p + 1);
      assert b[p..p + 1 + |rest|] == [b[p]] + b[p + 1..p + 1 + |rest|];
    }
  }

  ghost predicate Terminated(b: seq<char>, p: nat) {
    p + |StrAt(b, p)| < |b|
  }

  lemma {:induction false} StrAtIs(b: seq<char>, p: nat, s: string)
    requires p + |s| <= |b| && b[p..p + |s|] == s && NUL !in s
    requires p + |s| < |b| ==> b[p + |s|] == NUL
    ensures StrAt(b, p) == s
    decreases |s|
  {
    if s != [] {
      assert b[p] == b[p..p + |s|][0] == s[0];
      assert b[p + 1..p + 1 + |s[1..]|] == b[p..p + |s|][1..];
      StrAtIs(b, p + 1, s[1..]);
    }
  }

  /** Where the next word starts and ends in the C string at p. */
  function WordStart(b: seq<char>, p: nat): nat {
    p + |StrAt(b, p)| - |SkipSpaces(StrAt(b, p))|
  }

  function WordEnd(b: seq<char>, p: nat): nat {
    WordStart(b, p) + WordLength(SkipSpaces(StrAt(b, p)))
  }

  lemma {:induction false} SkipSpacesAt(s: string, k: nat)
    requires k <= |s| && (forall i :: 0 <= i < k ==> IsSpace(s[i])) && (k < |s| ==> !IsSpace(s[k]))
    ensures SkipSpaces(s) == s[k..]
  {
    if k > 0 {
      SkipSpacesAt(s[1..], k - 1);
    }
  }

  lemma {:induction false} WordLengthAt(s: string, k: nat)
    requires k <= |s| && (forall i :: 0 <= i < k ==> !IsSpace(s[i])) && (k < |s| ==> IsSpace(s[k]))
    ensures WordLength(s) == k
  {
    if k > 0 {
      WordLengthAt(s[1..], k - 1);
    }
  }

  /** Where the blanks in front of the next word end. */
  method FindStart(buf: array<char>, pos: nat) returns (out: nat)
    requires pos < buf.Length && Terminated(buf[..], pos)
    ensures out == WordStart(buf[..], pos) && out < buf.Length
    ensures pos <= out && SkipSpaces(StrAt(buf[..], pos)) == StrAt(buf[..], pos)[out - pos..]
    ensures forall i :: pos <= i < out ==> Separator(buf[i]) && buf[i] != NUL
  {
    ghost var s := StrAt(buf[..], pos);
    out := pos;
    while buf[out] != NUL && IsSpace(buf[out])
      invariant pos <= out <= pos + |s| && forall i :: 0 <= i < out - pos ==> IsSpace(s[i])
      invariant forall i :: pos <= i < out ==> Separator(buf[i]) && buf[i] != NUL
      decreases pos + |s| - out
    {
      SameChar(buf[..], pos, out - pos);
      out := out + 1;
    }
    SameChar(buf[..], pos, out - pos);
    SkipSpacesAt(s, out - pos);
  }

  /** Where the word at the front of the string at p ends. */
  method FindEnd(buf: array<char>, p: nat) returns (end: nat)
    requires p < buf.Length && Terminated(buf[..], p)
    ensures p <= end < buf.Length && end == p + WordLength(StrAt(buf[..], p))
    ensures forall i :: p <= i < end ==> !Separator(buf[i]) && buf[i] != NUL
    ensures buf[end] == NUL || Separator(buf[end])
  {
    ghost var t := StrAt(buf[..], p);
    end := p;
    while buf[end] != NUL && !IsSpace(buf[end])
      invariant p <= end <= p + |t| && forall i :: 0 <= i < end - p ==> !IsSpace(t[i])
      invariant forall i :: p <= i < end ==> !Separator(buf[i]) && buf[i] != NUL
      decreases p + |t| - end
    {
      SameChar(buf[..], p, end - p);
      end := end + 1;
    }
    SameChar(buf[..], p, end - p);
    WordLengthAt(t, end - p);
  }

  lemma {:induction false} StrAtSuffix(b: seq<char>, p: nat, k: nat)
    requires k <= |StrAt(b, p)|
    ensures StrAt(b, p + k) == StrAt(b, p)[k..]
    decreases k
  {
    if k > 0 {
      StrAtSuffix(b, p + 1, k - 1);
    }
  }

  /** Cut the next word out of the string at pos: it starts at `out`, a NUL is written after
      it, and the caller goes on at `next`. */
  method NextToken(buf: array<char>, pos: nat) returns (out: nat, next: nat)
    requires pos < buf.Length && Terminated(buf[..], pos)
    modifies buf
    ensures out == WordStart(old(buf[..]), pos) && next == WordEnd(old(buf[..]), pos) + 1
    ensures pos <= out < next <= buf.Length && buf[..] == old(buf[..])[next - 1 := NUL]
    ensures AllSeparators(old(buf[..])[pos..out]) && NoSeparators(old(buf[..])[out..next - 1])
    ensures NUL !in old(buf[..])[pos..next - 1]
    ensures old(buf[next - 1]) == NUL || Separator(old(buf[next - 1]))
  {
    out := FindStart(buf, pos);
    StrAtSuffix(buf[..], pos, out - pos);
    var end := FindEnd(buf, out);
    buf[end] := NUL;
    next := end + 1;
  }

  lemma SameChar(b: seq<char>, p: nat, i: nat)
    requires p <= |b| && Terminated(b, p) && i <= |StrAt(b, p)|
    ensures i < |StrAt(b, p)| <==> b[p + i] != NUL
    ensures i < |StrAt(b, p)| ==> StrAt(b, p)[i] == b[p + i]
  {
    StrAtChars(b, p);
    var s := StrAt(b, p);
    if i < |s| {
      assert b[p + i] == b[p..p + |s|][i] == s[i] && s[i] in s;
    }
  }

  /** The token cut out is the first word, or empty when there is none. */
  lemma TokenIs(b: seq<char>, p: nat)
    requires p < |b| && Terminated(b, p)
    ensures var t := SkipSpaces(StrAt(b, p));
            WordEnd(b, p) < |b| && StrAt(b[WordEnd(b, p) := NUL], WordStart(b, p)) == t[..WordLength(t)]
  {
    var s := StrAt(b, p);
    var t := SkipSpaces(s);
    assert t == s[|s| - |t|..] by {
      SkippedSuffix(s);
    }
    assert b[p..p + |s|] == s && NUL !in s by {
      StrAtChars(b, p);
    }
    var k, n := |s| - |t|, WordLength(t);
    WordInBuffer(b, p, s, k, t, n);
    assert WordStart(b, p) == p + k && WordEnd(b, p) == p + k + n;
  }

  /** A stretch of a string that a buffer holds, once a NUL is written behind it. */
  lemma WordInBuffer(b: seq<char>, p: nat, s: string, k: nat, t: string, n: nat)
    requires p + |s| < |b| && b[p..p + |s|] == s && NUL !in s && k + n <= |s| && t == s[k..]
    ensures StrAt(b[p + k + n := NUL], p + k) == t[..n]
  {
    var c, w := b[p + k + n := NUL], t[..n];
    forall i | 0 <= i < n
      ensures c[p + k..p + k + n][i] == w[i] && w[i] in s
    {
      assert w[i] == s[k + i] == b[p..p + |s|][k + i];
    }
    StrAtIs(c, p + k, w);
  }

  lemma {:induction false} SkippedSuffix(s: string)
    ensures SkipSpaces(s) == s[|s| - |SkipSpaces(s)|..]
    ensures SkipSpaces(s) != [] ==> !IsSpace(SkipSpaces(s)[0])
    ensures WordsOf(s) == WordsOf(SkipSpaces(s))
  {
    if s != [] && IsSpace(s[0]) {
      SkippedSuffix(s[1..]);
    }
  }

  /** A text in a buffer of zeros, cut up to p. */
  ghost predicate Padded(b: seq<char>, p: nat, end: nat) {
    p <= end + 1 < |b| && (forall k :: end <= k < |b| ==> b[k] == NUL) && (forall k :: p <= k < end ==> b[k] != NUL)
  }

  lemma PaddedStr(b: seq<char>, p: nat, end: nat)
    requires Padded(b, p, end)
    ensures StrAt(b, p) == if p <= end then b[p..end] else []
    ensures Terminated(b, p)
  {
    StrAtIs(b, p, if p <= end then b[p..end] else []);
  }

  /** Cutting one word off leaves the others. */
  lemma CutOne(b: seq<char>, p: nat, end: nat)
    requires Padded(b, p, end)
    ensures var e, t := WordEnd(b, p), SkipSpaces(StrAt(b, p));
            && Terminated(b, p) && e < |b|
            && (p <= end ==> Padded(b[e := NUL], e + 1, end))
            && (t == [] ==> WordsOf(StrAt(b, p)) == [] && WordsOf(StrAt(b[e := NUL], e + 1)) == [])
            && (t != [] ==> p <= end
                            && WordsOf(StrAt(b, p)) == [t[..WordLength(t)]] + WordsOf(StrAt(b[e := NUL], e + 1)))
  {
    PaddedStr(b, p, end);
    SkippedSuffix(StrAt(b, p));
    var t := SkipSpaces(StrAt(b, p));
    if t != [] {
      WordThenRest(t);
      RestOfBuffer(b, p, end);
    } else {
      var e := WordEnd(b, p);
      var c := b[e := NUL];
      assert c == b;
      assert StrAt(c, e + 1) == [];
    }
  }

  /** What follows the first word and the blank after it. */
  function AfterWord(t: string): string {
    if WordLength(t) < |t| then t[WordLength(t) + 1..] else []
  }

  lemma WordThenRest(t: string)
    requires t != [] && !IsSpace(t[0])
    ensures WordsOf(t) == [t[..WordLength(t)]] + WordsOf(AfterWord(t))
  {
    var n := WordLength(t);
    WordLengthIs(t);
    var rest := t[n..];
    assert WordsOf(t) == [t[..n]] + WordsOf(rest);
    if n < |t| {
      assert rest[0] == t[n] && rest[1..] == t[n + 1..];
    }
  }

  lemma RestOfBuffer(b: seq<char>, p: nat, end: nat)
    requires Padded(b, p, end) && SkipSpaces(StrAt(b, p)) != []
    ensures var e := WordEnd(b, p);
            && e < |b| && Padded(b[e := NUL], e + 1, end)
            && StrAt(b[e := NUL], e + 1) == AfterWord(SkipSpaces(StrAt(b, p)))
  {
    var s, e := StrAt(b, p), WordEnd(b, p);
    var t := SkipSpaces(s);
    assert p <= end && s == b[p..end] by {
      PaddedStr(b, p, end);
    }
    assert t == b[p..end][|s| - |t|..] by {
      SkippedSuffix(s);
    }
    RestAt(b, p, end, |s| - |t|, WordLength(t), t, e);
  }

  /** What is left of a text in a padded buffer when a NUL is written into it. */
  lemma RestAt(b: seq<char>, p: nat, end: nat, k: nat, n: nat, t: string, e: nat)
    requires Padded(b, p, end) && p <= end && k + n <= end - p && t == b[p..end][k..] && e == p + k + n
    ensures e < |b| && Padded(b[e := NUL], e + 1, end)
    ensures StrAt(b[e := NUL], e + 1) == if n < |t| then t[n + 1..] else []
  {
    SliceOfSlice(b, p, end, k, n);
    PaddedStr(b[e := NUL], e + 1, end);
  }

  lemma SliceOfSlice(b: seq<char>, p: nat, end: nat, k: nat, n: nat)
    requires p + k + n <= end < |b|
    ensures var t := b[p..end][k..];
            |t| == end - p - k && (n < |t| ==> t[n + 1..] == b[p + k + n := NUL][p + k + n + 1..end])
  {
  }

  /** The token is the first word of what was left, and what is left has the other words. */
  lemma TokenCut(b: seq<char>, p: nat, end: nat)
    requires Padded(b, p, end)
    ensures Terminated(b, p) && WordEnd(b, p) < |b|
    ensures var c, next := b[WordEnd(b, p) := NUL], WordEnd(b, p) + 1;
            var token := StrAt(c, WordStart(b, p));
            && WordsOf(StrAt(b, p)) == (if token == [] then [] else [token] + WordsOf(StrAt(c, next)))
            && (token != [] ==> IsWord(token) && p <= end)
            && (token == [] ==> WordsOf(StrAt(c, next)) == [])
            && (p <= end ==> Padded(c, next, end))
  {
    CutOne(b, p, end);
    TokenIs(b, p);
    var t := SkipSpaces(StrAt(b, p));
    if t != [] {
      assert !IsSpace(t[0]) by {
        SkippedSuffix(StrAt(b, p));
      }
      FirstWordOff(t);
    }
  }

  /** One token of a padded buffer, as the string it is. */
  method CutToken(buf: array<char>, pos: nat, ghost end: nat) returns (token: string, next: nat)
    requires Padded(buf[..], pos, end)
    modifies buf
    ensures WordsOf(StrAt(old(buf[..]), pos)) == if token == [] then [] else [token] + WordsOf(StrAt(buf[..], next))
    ensures token != [] ==> IsWord(token) && pos <= end
    ensures pos <= end ==> Padded(buf[..], next, end) && next > pos
    ensures token == [] ==> WordsOf(StrAt(buf[..], next)) == []
  {
    TokenCut(buf[..], pos, end);
    var out;
    out, next := NextToken(buf, pos);
    token := StrAt(buf[..], out);
  }

  /** Copy a text into a buffer of zeros. */
  method Fill(text: string) returns (buf: array<char>)
    requires |text| < BUFFER_LEN - 1 && NUL !in text
    ensures fresh(buf) && Padded(buf[..], 0, |text|) && StrAt(buf[..], 0) == text
  {
    buf := new char[BUFFER_LEN](i => NUL);
    forall i | 0 <= i < |text| {
      buf[i] := text[i];
    }
    assert forall k :: 0 <= k < |text| ==> buf[..][k] == text[k] && text[k] in text;
    PaddedStr(buf[..], 0, |text|);
    assert buf[..][0..|text|] == text;
  }

  /** The loop over the tokens of a `requires` value gives its words. */
  method TokensOf(text: string) returns (tokens: seq<string>)
    requires |text| < BUFFER_LEN - 1 && NUL !in text
    ensures tokens == WordsOf(text)
    ensures forall words, gaps :: Apart(words, gaps) && text == Spaced(words, gaps) ==> tokens == words
  {
    forall words, gaps | Apart(words, gaps) && text == Spaced(words, gaps)
      ensures WordsOf(text) == words
    {
      WordsOfSpaced(words, gaps);
    }
    var buf := Fill(text);
    tokens := [];
    var token, next := CutToken(buf, 0, |text|);
    ghost var left := WordsOf(text);
    while token != []
      invariant token != [] ==> Padded(buf[..], next, |text|)
      invariant left == if token == [] then [] else [token] + WordsOf(StrAt(buf[..], next))
      invariant WordsOf(text) == tokens + left
      decreases |left|
    {
      Reassociate(tokens, [token], left[1..]);
      tokens, left := tokens + [token], left[1..];
      token, next := CutToken(buf, next, |text|);
    }
  }
}
