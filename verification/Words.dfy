/** C strings and the words in them. */
module Words {
  import opened Sequences

  const NUL := '\0'

  predicate IsSpace(c: char) {
    c == ' ' || '\t' <= c <= '\r'
  }

  /** The blanks at the front taken off. */
  function SkipSpaces(s: string): (r: string)
    ensures |r| <= |s|
  {
    if s != [] && IsSpace(s[0]) then SkipSpaces(s[1..]) else s
  }

  /** The length of the word at the front, up to a blank or the end. */
  function WordLength(s: string): (n: nat)
    ensures n <= |s|
  {
    if s != [] && !IsSpace(s[0]) then 1 + WordLength(s[1..]) else 0
  }

  /** The words of a text, in order. */
  function WordsOf(s: string): seq<string>
    decreases |s|
  {
    if s == [] then []
    else if IsSpace(s[0]) then WordsOf(s[1..])
    else [s[..WordLength(s)]] + WordsOf(s[WordLength(s)..])
  }

  predicate IsWord(w: string) {
    w != [] && forall c :: c in w ==> !IsSpace(c)
  }

  lemma {:induction false} WordLengthIs(s: string)
    ensures forall c :: c in s[..WordLength(s)] ==> !IsSpace(c)
    ensures WordLength(s) < |s| ==> IsSpace(s[WordLength(s)])
  {
    if s != [] && !IsSpace(s[0]) {
      WordLengthIs(s[1..]);
      assert s[..WordLength(s)] == [s[0]] + s[1..][..WordLength(s[1..])];
    }
  }

  lemma {:induction false} WordLengthOf(w: string, rest: string)
    requires (forall c :: c in w ==> !IsSpace(c)) && (rest != [] ==> IsSpace(rest[0]))
    ensures WordLength(w + rest) == |w|
  {
    if w == [] {
      assert w + rest == rest;
    } else {
      assert (w + rest)[1..] == w[1..] + rest && (w + rest)[0] == w[0];
      WordLengthOf(w[1..], rest);
    }
  }

  /** Words, each followed by a blank. */
  function Join(words: seq<string>): string {
    if words == [] then "" else words[0] + " " + Join(words[1..])
  }

  lemma WordsCons(w: string, rest: string)
    requires IsWord(w) && (rest != [] ==> IsSpace(rest[0]))
    ensures WordsOf(w + rest) == [w] + WordsOf(rest)
  {
    var s := w + rest;
    assert s[0] == w[0] && w[0] in w;
    WordLengthOf(w, rest);
    assert s[..|w|] == w && s[|w|..] == rest;
  }

  lemma WordsSpace(c: char, s: string)
    requires IsSpace(c)
    ensures WordsOf([c] + s) == WordsOf(s)
  {
    assert ([c] + s)[1..] == s;
  }

  /** Joining words and splitting the text gives back the words. */
  lemma {:induction false} WordsOfJoin(words: seq<string>)
    requires forall w :: w in words ==> IsWord(w)
    ensures WordsOf(Join(words)) == words
  {
    if words != [] {
      var rest := " " + Join(words[1..]);
      assert Join(words) == words[0] + rest;
      WordsCons(words[0], rest);
      WordsSpace(' ', Join(words[1..]));
      WordsOfJoin(words[1..]);
    }
  }

  lemma {:induction false} WordsOfAreWords(s: string)
    ensures forall w :: w in WordsOf(s) ==> IsWord(w)
    decreases |s|
  {
    if s != [] {
      if IsSpace(s[0]) {
        WordsOfAreWords(s[1..]);
      } else {
        WordLengthIs(s);
        WordsOfAreWords(s[WordLength(s)..]);
      }
    }
  }

  lemma WordsAppendWord(w: string, rest: string, b: string)
    requires IsWord(w) && (rest != [] ==> IsSpace(rest[0])) && (b != [] ==> IsSpace(b[0]))
    requires WordsOf(rest + b) == WordsOf(rest) + WordsOf(b)
    ensures WordsOf(w + (rest + b)) == WordsOf(w + rest) + WordsOf(b)
  {
    var whole, part := w + (rest + b), w + rest;
    assert WordsOf(whole) == [w] + WordsOf(rest + b) by {
      WordsCons(w, rest + b);
    }
    assert WordsOf(part) == [w] + WordsOf(rest) by {
      WordsCons(w, rest);
    }
    Reassociate([w], WordsOf(rest), WordsOf(b));
  }

  lemma FirstWordOff(a: string)
    requires a != [] && !IsSpace(a[0])
    ensures var n := WordLength(a);
            n > 0 && IsWord(a[..n]) && (a[n..] != [] ==> IsSpace(a[n..][0])) && a == a[..n] + a[n..]
  {
    WordLengthIs(a);
  }

  lemma {:induction false} WordsAppend(a: string, b: string)
    requires b != [] ==> IsSpace(b[0])
    ensures WordsOf(a + b) == WordsOf(a) + WordsOf(b)
    decreases |a|
  {
    if a == [] {
      assert a + b == b;
    } else if IsSpace(a[0]) {
      WordsAppend(a[1..], b);
      assert (a + b)[1..] == a[1..] + b;
    } else {
      FirstWordOff(a);
      var w, rest := a[..WordLength(a)], a[WordLength(a)..];
      WordsAppend(rest, b);
      WordsAppendWord(w, rest, b);
      Reassociate(w, rest, b);
    }
  }

  // --- what separates words, written out ---------------------------------------------------

  /** The separators: blank, tab, newline, vertical tab, form feed, carriage return. */
  predicate Separator(c: char) {
    c == ' ' || c == '\t' || c == '\n' || c == '\U{0B}' || c == '\U{0C}' || c == '\r'
  }

  predicate AllSeparators(s: string) {
    forall c :: c in s ==> Separator(c)
  }

  predicate NoSeparators(s: string) {
    forall c :: c in s ==> !Separator(c)
  }

  /** A text that consists of these words, with gaps[i] before word i, and the last gap behind. */
  function Spaced(words: seq<string>, gaps: seq<string>): string
    requires |gaps| == |words| + 1
  {
    if words == [] then gaps[0] else gaps[0] + words[0] + Spaced(words[1..], gaps[1..])
  }

  /** The words have no separators in them, the gaps nothing else; between words there is some. */
  ghost predicate Apart(words: seq<string>, gaps: seq<string>) {
    && |gaps| == |words| + 1
    && (forall w :: w in words ==> w != [] && NoSeparators(w))
    && (forall i :: 0 <= i < |gaps| ==> AllSeparators(gaps[i]))
    && forall i :: 0 < i < |gaps| - 1 ==> gaps[i] != []
  }

  lemma {:induction false} WordsAfterGap(gap: string, s: string)
    requires AllSeparators(gap)
    ensures WordsOf(gap + s) == WordsOf(s)
  {
    if gap == [] {
      assert gap + s == s;
    } else {
      assert gap + s == [gap[0]] + (gap[1..] + s) && gap[0] in gap;
      WordsSpace(gap[0], gap[1..] + s);
      WordsAfterGap(gap[1..], s);
    }
  }

  lemma SpacedRest(words: seq<string>, gaps: seq<string>)
    requires Apart(words, gaps) && words != []
    ensures Apart(words[1..], gaps[1..])
    ensures var rest := Spaced(words[1..], gaps[1..]); rest != [] ==> Separator(rest[0])
  {
    assert forall i :: 0 <= i < |gaps[1..]| ==> gaps[1..][i] == gaps[i + 1];
    var tail, behind := words[1..], gaps[1..];
    var rest := Spaced(tail, behind);
    assert AllSeparators(gaps[1]) && behind[0] == gaps[1];
    if tail == [] {
      assert rest == gaps[1];
      assert rest != [] ==> rest[0] in gaps[1];
    } else {
      assert gaps[1] != [] && rest == gaps[1] + tail[0] + Spaced(tail[1..], behind[1..]);
      assert rest[0] == gaps[1][0] && gaps[1][0] in gaps[1];
    }
  }

  /** Splitting such a text gives exactly the words. */
  lemma {:induction false} WordsOfSpaced(words: seq<string>, gaps: seq<string>)
    requires Apart(words, gaps)
    ensures WordsOf(Spaced(words, gaps)) == words
    decreases |words|
  {
    if words == [] {
      WordsAfterGap(gaps[0], []);
      assert gaps[0] + [] == gaps[0];
    } else {
      var w, rest := words[0], Spaced(words[1..], gaps[1..]);
      SpacedRest(words, gaps);
      WordsOfSpaced(words[1..], gaps[1..]);
      Reassociate(gaps[0], w, rest);
      assert AllSeparators(gaps[0]);
      WordsAfterGap(gaps[0], w + rest);
      assert w in words && IsWord(w);
      WordsCons(w, rest);
    }
  }
}
