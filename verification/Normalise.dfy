/** Normalising the `requires` value of an interface: substrings of earlier tokens go. */
module Normalise {
  import opened Sequences
  import opened Words
  import opened Tokenizer

  /** The needle occurs somewhere in the text. */
  predicate Contains(text: string, needle: string) {
    exists i :: 0 <= i <= |text| && FoundAt(text, needle, i)
  }

  predicate FoundAt(text: string, needle: string, i: nat) {
    i + |needle| <= |text| && text[i..i + |needle|] == needle
  }

  /** A fixed-size string buffer keeps what fits. */
  function Truncate(s: string): string {
    if |s| < BUFFER_LEN then s else s[..BUFFER_LEN - 1]
  }

  predicate Covered(kept: seq<string>, word: string) {
    exists k :: 0 <= k < |kept| && Contains(kept[k], word)
  }

  /** Keep, in order, the words that no word kept earlier contains. */
  function Keep(kept: seq<string>, words: seq<string>): seq<string>
    decreases |words|
  {
    if words == [] then kept
    else if Covered(kept, words[0]) then Keep(kept, words[1..])
    else Keep(kept + [words[0]], words[1..])
  }

  function Normal(text: string): string {
    Join(Keep([], WordsOf(text)))
  }

  ghost predicate AllWords(words: seq<string>) {
    forall w :: w in words ==> IsWord(w)
  }

  lemma {:induction false} KeepWords(kept: seq<string>, words: seq<string>)
    requires AllWords(kept) && AllWords(words)
    ensures AllWords(Keep(kept, words)) && kept <= Keep(kept, words)
    decreases |words|
  {
    if words != [] {
      if Covered(kept, words[0]) {
        KeepWords(kept, words[1..]);
      } else {
        KeepWords(kept + [words[0]], words[1..]);
      }
    }
  }

  lemma ContainsSelf(w: string)
    ensures Contains(w, w)
  {
    assert FoundAt(w, w, 0);
  }

  lemma ContainsInside(a: string, text: string, b: string, needle: string)
    requires Contains(text, needle)
    ensures Contains(a + text + b, needle)
  {
    var i :| 0 <= i <= |text| && FoundAt(text, needle, i);
    assert (a + text + b)[|a| + i..|a| + i + |needle|] == text[i..i + |needle|];
    assert FoundAt(a + text + b, needle, |a| + i);
  }

  lemma FoundLeft(a: string, b: string, needle: string, i: nat)
    requires FoundAt(a + b, needle, i) && i + |needle| <= |a|
    ensures FoundAt(a, needle, i)
  {
    assert (a + b)[i..i + |needle|] == a[i..i + |needle|];
  }

  lemma FoundRight(a: string, b: string, needle: string, i: nat)
    requires FoundAt(a + b, needle, i) && i >= |a|
    ensures FoundAt(b, needle, i - |a|)
  {
    assert (a + b)[i..i + |needle|] == b[i - |a|..i - |a| + |needle|];
  }

  lemma FoundAcross(text: string, needle: string, i: nat, p: nat)
    requires FoundAt(text, needle, i) && i <= p < i + |needle|
    ensures text[p] in needle
  {
    assert text[i..i + |needle|][p - i] == text[p];
  }

  /** A word found in k, a blank and more lies in k or in the rest: it cannot span the blank. */
  lemma FoundInPart(k: string, rest: string, w: string)
    requires IsWord(w)
    ensures Contains(k + " " + rest, w) <==> Contains(k, w) || Contains(rest, w)
  {
    var text := k + " " + rest;
    if Contains(text, w) {
      var i :| 0 <= i <= |text| && FoundAt(text, w, i);
      if i + |w| <= |k| {
        FoundLeft(k + " ", rest, w, i);
        FoundLeft(k, " ", w, i);
      } else if i > |k| {
        FoundRight(k + " ", rest, w, i);
      } else {
        FoundAcross(text, w, i, |k|);
        assert false;
      }
    }
    if Contains(k, w) {
      ContainsInside("", k, " " + rest, w);
      assert "" + k + (" " + rest) == text;
    }
    if Contains(rest, w) {
      ContainsInside(k + " ", rest, "", w);
      assert k + " " + rest + "" == text;
    }
  }

  /** A word is found in joined words exactly when one of them contains it. */
  lemma {:induction false} FoundInJoin(kept: seq<string>, w: string)
    requires IsWord(w)
    ensures Contains(Join(kept), w) <==> Covered(kept, w)
  {
    if kept == [] {
      assert forall i :: !FoundAt(Join(kept), w, i);
    } else {
      FoundInPart(kept[0], Join(kept[1..]), w);
      assert Join(kept) == kept[0] + " " + Join(kept[1..]);
      FoundInJoin(kept[1..], w);
      CoveredCons(kept, w);
    }
  }

  lemma CoveredCons(kept: seq<string>, w: string)
    requires kept != []
    ensures Covered(kept, w) <==> Contains(kept[0], w) || Covered(kept[1..], w)
  {
    if Covered(kept, w) {
      var j :| 0 <= j < |kept| && Contains(kept[j], w);
      assert j > 0 ==> Contains(kept[1..][j - 1], w);
    }
    if Covered(kept[1..], w) {
      var j :| 0 <= j < |kept[1..]| && Contains(kept[1..][j], w);
      assert Contains(kept[j + 1], w);
    }
  }

  lemma {:induction false} JoinAppend(a: seq<string>, w: string)
    ensures Join(a + [w]) == Join(a) + w + " "
  {
    if a != [] {
      JoinAppend(a[1..], w);
      assert (a + [w])[1..] == a[1..] + [w];
    }
  }

  lemma {:induction false} JoinPrefix(a: seq<string>, b: seq<string>)
    requires a <= b
    ensures Join(a) <= Join(b)
  {
    if a != [] {
      assert a[0] == b[0] && a[1..] <= b[1..];
      JoinPrefix(a[1..], b[1..]);
    }
  }

  // --- properties of the result ----------------------------------------------------------

  lemma {:induction false} KeepAppend(kept: seq<string>, a: seq<string>, b: seq<string>)
    ensures Keep(kept, a + b) == Keep(Keep(kept, a), b)
    decreases |a|
  {
    if a == [] {
      assert a + b == b;
    } else {
      assert (a + b)[1..] == a[1..] + b && (a + b)[0] == a[0];
      if Covered(kept, a[0]) {
        KeepAppend(kept, a[1..], b);
      } else {
        KeepAppend(kept + [a[0]], a[1..], b);
      }
    }
  }

  lemma CoveredMore(kept: seq<string>, more: seq<string>, w: string)
    requires Covered(kept, w) && kept <= more
    ensures Covered(more, w)
  {
    var k :| 0 <= k < |kept| && Contains(kept[k], w);
    assert Contains(more[k], w);
  }

  /** Every word ends up inside a kept one. */
  lemma {:induction false} KeepCovers(kept: seq<string>, words: seq<string>)
    requires AllWords(kept) && AllWords(words)
    ensures forall w :: w in words ==> Covered(Keep(kept, words), w)
    decreases |words|
  {
    if words != [] {
      var w := words[0];
      var more := if Covered(kept, w) then kept else kept + [w];
      if more != kept {
        ContainsSelf(w);
        assert Contains(more[|kept|], w);
      }
      KeepWords(more, words[1..]);
      CoveredMore(more, Keep(kept, words), w);
      KeepCovers(more, words[1..]);
    }
  }

  /** Where a word occurs first. */
  function First(words: seq<string>, w: string): (i: nat)
    requires w in words
    ensures i < |words| && words[i] == w && w !in words[..i]
  {
    if words[0] == w then 0 else
      assert forall k :: 0 <= k < First(words[1..], w) ==> words[k + 1] == words[1..][..First(words[1..], w)][k];
      1 + First(words[1..], w)
  }

  lemma ContainsTransitive(text: string, part: string, needle: string)
    requires Contains(text, part) && Contains(part, needle)
    ensures Contains(text, needle)
  {
    var i :| 0 <= i <= |text| && FoundAt(text, part, i);
    var j :| 0 <= j <= |part| && FoundAt(part, needle, j);
    forall k | 0 <= k < |needle|
      ensures text[i + j + k] == needle[k]
    {
      assert text[i..i + |part|][j + k] == text[i + j + k] && part[j..j + |needle|][k] == part[j + k];
    }
    assert FoundAt(text, needle, i + j);
  }

  /** A covered word covers nothing more. */
  lemma CoveredAlready(kept: seq<string>, h: string, rest: seq<string>, w: string)
    requires Covered(kept, h)
    ensures Covered(kept + [h] + rest, w) <==> Covered(kept + rest, w)
  {
    var all, some := kept + [h] + rest, kept + rest;
    if Covered(all, w) {
      var k :| 0 <= k < |all| && Contains(all[k], w);
      if k == |kept| {
        var j :| 0 <= j < |kept| && Contains(kept[j], h);
        ContainsTransitive(kept[j], h, w);
        assert Contains(some[j], w);
      } else {
        assert all[k] == some[if k < |kept| then k else k - 1];
      }
    }
    if Covered(some, w) {
      var k :| 0 <= k < |some| && Contains(some[k], w);
      assert some[k] == all[if k < |kept| then k else k + 1];
    }
  }

  lemma {:induction false} KeptFrom(kept: seq<string>, words: seq<string>, w: string)
    requires AllWords(kept) && AllWords(words) && w !in kept
    ensures w in Keep(kept, words) <==> w in words && !Covered(kept + words[..First(words, w)], w)
    decreases |words|
  {
    if words != [] {
      var h, rest := words[0], words[1..];
      assert words == [h] + rest;
      if h == w {
        assert kept + words[..0] == kept;
        if Covered(kept, w) {
          KeptFrom(kept, rest, w);
          if w in rest {
            CoveredMore(kept, kept + rest[..First(rest, w)], w);
          }
        } else {
          KeepWords(kept + [w], rest);
          assert w in kept + [w];
        }
      } else {
        KeptFrom(if Covered(kept, h) then kept else kept + [h], rest, w);
        if w in rest {
          var front := rest[..First(rest, w)];
          assert words[..First(words, w)] == [h] + front;
          Reassociate(kept, [h], front);
          if Covered(kept, h) {
            CoveredAlready(kept, h, front, w);
          }
        }
      }
    }
  }

  /** A required name survives normalisation exactly when no name listed before its first
      occurrence contains it. */
  lemma KeptIff(words: seq<string>, w: string)
    requires AllWords(words)
    ensures w in Keep([], words) <==> w in words && !Covered(words[..First(words, w)], w)
  {
    KeptFrom([], words, w);
    if w in words {
      assert [] + words[..First(words, w)] == words[..First(words, w)];
    }
  }

  /** So requirements get lost: after eth10, eth1 is dropped. */
  lemma Eth1Dropped()
    ensures Keep([], ["eth10", "eth1"]) == ["eth10"] && "eth1" !in Keep([], ["eth10", "eth1"])
  {
    assert FoundAt("eth10", "eth1", 0);
    assert Contains(["eth10"][0], "eth1");
    assert ["eth10", "eth1"][1..] == ["eth1"] && ["eth1"][1..] == [] && [] + ["eth10"] == ["eth10"];
    assert Keep(["eth10"], ["eth1"]) == Keep(["eth10"], []) == ["eth10"];
    assert !Covered([], "eth10");
  }

  lemma {:induction false} KeepNothing(kept: seq<string>, words: seq<string>)
    requires forall w :: w in words ==> Covered(kept, w)
    ensures Keep(kept, words) == kept
    decreases |words|
  {
    if words != [] {
      KeepNothing(kept, words[1..]);
    }
  }

  /** No kept word is inside one kept before it. */
  ghost predicate Independent(kept: seq<string>) {
    forall j :: 0 <= j < |kept| ==> !Covered(kept[..j], kept[j])
  }

  lemma {:induction false} KeepIndependent(kept: seq<string>, words: seq<string>)
    requires Independent(kept)
    ensures Independent(Keep(kept, words))
    decreases |words|
  {
    if words != [] {
      if Covered(kept, words[0]) {
        KeepIndependent(kept, words[1..]);
      } else {
        var more := kept + [words[0]];
        forall j | 0 <= j < |more|
          ensures !Covered(more[..j], more[j])
        {
          assert more[..j] == kept[..j];
        }
        KeepIndependent(more, words[1..]);
      }
    }
  }

  /** Independent words are all kept. */
  lemma {:induction false} KeepAll(words: seq<string>, n: nat)
    requires Independent(words) && n <= |words|
    ensures Keep(words[..n], words[n..]) == words
    decreases |words| - n
  {
    if n < |words| {
      assert words[n..][0] == words[n] && words[n..][1..] == words[n + 1..];
      assert words[..n] + [words[n]] == words[..n + 1];
      KeepAll(words, n + 1);
    } else {
      assert words[..n] == words && words[n..] == [];
    }
  }

  /** Re-tokenising the normalised value gives the kept words. */
  lemma WordsOfNormal(text: string)
    ensures WordsOf(Normal(text)) == Keep([], WordsOf(text))
  {
    WordsOfAreWords(text);
    KeepWords([], WordsOf(text));
    WordsOfJoin(Keep([], WordsOf(text)));
  }

  /** Asking again is a fixpoint: with the same executor output appended, the normalised value
      normalises to itself, so the graph stays as it is while the depth walk asks again. */
  lemma NormalFixpoint(required: string, output: string)
    requires output != [] ==> IsSpace(output[0])
    ensures Normal(Normal(required + output) + output) == Normal(required + output)
  {
    var kept := Keep([], WordsOf(required + output));
    WordsOfNormal(required + output);
    WordsAppend(required, output);
    WordsAppend(Normal(required + output), output);
    WordsOfAreWords(required + output);
    KeepIndependent([], WordsOf(required + output));
    KeepAll(kept, 0);
    assert kept[..0] == [] && kept[0..] == kept;
    KeepAppend([], kept, WordsOf(output));
    KeepCovers([], WordsOf(required + output));
    assert forall w :: w in WordsOf(output) ==> w in WordsOf(required) + WordsOf(output);
    KeepNothing(kept, WordsOf(output));
  }

  // --- the loop --------------------------------------------------------------------------

  lemma {:induction false} JoinWordsLength(s: string)
    ensures |Join(WordsOf(s))| <= |s| + 1
    decreases |s|
  {
    if s != [] {
      if IsSpace(s[0]) {
        JoinWordsLength(s[1..]);
      } else {
        var n := WordLength(s);
        WordLengthIs(s);
        if n < |s| {
          JoinWordsLength(s[n + 1..]);
          assert s[n..] == [s[n]] + s[n + 1..];
          WordsSpace(s[n], s[n + 1..]);
        } else {
          assert s[n..] == [];
        }
      }
    }
  }

  lemma {:induction false} JoinKeepLength(kept: seq<string>, words: seq<string>)
    ensures |Join(Keep(kept, words))| <= |Join(kept)| + |Join(words)|
    decreases |words|
  {
    if words != [] {
      if Covered(kept, words[0]) {
        JoinKeepLength(kept, words[1..]);
      } else {
        JoinAppend(kept, words[0]);
        JoinKeepLength(kept + [words[0]], words[1..]);
      }
    }
  }

  lemma NormalLength(text: string)
    ensures |Normal(text)| <= |text| + 1
  {
    JoinKeepLength([], WordsOf(text));
    JoinWordsLength(text);
  }

  /** One more kept word still fits the buffer. */
  lemma KeepFits(text: string, kept: seq<string>, w: string, rest: seq<string>)
    requires |text| < BUFFER_LEN - 1
    requires AllWords(kept) && IsWord(w) && AllWords(rest) && !Covered(kept, w)
    requires Join(Keep(kept, [w] + rest)) == Normal(text)
    ensures Truncate(Truncate(Join(kept) + w) + " ") == Join(kept + [w])
  {
    NormalLength(text);
    JoinAppend(kept, w);
    assert ([w] + rest)[1..] == rest;
    KeepWords(kept + [w], rest);
    JoinPrefix(kept + [w], Keep(kept + [w], rest));
  }

  /** Cut the text into tokens in place, and append each token that does not occur in what is
      appended so far. */
  method Dedup(text: string) returns (final: string)
    requires |text| < BUFFER_LEN - 1 && NUL !in text
    ensures final == Normal(text)
  {
    var deps := Fill(text);
    final := "";
    var p := 0;
    ghost var kept: seq<string> := [];
    while deps[p] != NUL
      invariant Padded(deps[..], p, |text|) && AllWords(kept) && final == Join(kept)
      invariant Keep(kept, WordsOf(StrAt(deps[..], p))) == Keep([], WordsOf(text))
      decreases |text| + 1 - p
    {
      ghost var words := WordsOf(StrAt(deps[..], p));
      WordsOfAreWords(StrAt(deps[..], p));
      var token;
      token, p := CutToken(deps, p, |text|);
      ghost var rest := WordsOf(StrAt(deps[..], p));
      if Contains(final, token) {
        DropToken(kept, token, words, rest);
        continue;
      }
      if token == [] {
        assert FoundAt(final, token, 0);
      }
      FoundInJoin(kept, token);
      assert ([token] + rest)[1..] == rest;
      WordsOfAreWords(StrAt(deps[..], p));
      KeepFits(text, kept, token, rest);
      final := Truncate(final + token);
      final := Truncate(final + " ");
      kept := kept + [token];
    }
    assert StrAt(deps[..], p) == [];
  }

  lemma DropToken(kept: seq<string>, token: string, words: seq<string>, rest: seq<string>)
    requires words == (if token == [] then [] else [token] + rest) && (token == [] ==> rest == [])
    requires Contains(Join(kept), token) && (token != [] ==> IsWord(token))
    ensures Keep(kept, words) == Keep(kept, rest)
  {
    if token != [] {
      FoundInJoin(kept, token);
      assert ([token] + rest)[1..] == rest;
    }
  }

  /** What the executors said, each answer after a blank. */
  function Answers(outputs: seq<string>): (r: string)
    ensures r != [] ==> IsSpace(r[0])
  {
    if outputs == [] then ""
    else if outputs[0] == [] then Answers(outputs[1..])
    else " " + outputs[0] + Answers(outputs[1..])
  }

  /** What the buffer must hold: the value, and each answer that says something after a blank. */
  ghost function TotalLength(required: string, outputs: seq<string>): nat {
    if outputs == [] then |required|
    else (if outputs[0] == [] then 0 else 1 + |outputs[0]|) + TotalLength(required, outputs[1..])
  }

  /** The words of all answers, in order. */
  ghost function WordsOfAll(outputs: seq<string>): seq<string> {
    if outputs == [] then [] else WordsOf(outputs[0]) + WordsOfAll(outputs[1..])
  }

  lemma {:induction false} AnswersHold(required: string, outputs: seq<string>)
    requires NUL !in required && forall o :: o in outputs ==> NUL !in o
    ensures |required + Answers(outputs)| == TotalLength(required, outputs) && NUL !in required + Answers(outputs)
    decreases |outputs|
  {
    if outputs != [] {
      assert outputs[0] in outputs && forall o :: o in outputs[1..] ==> o in outputs;
      AnswersHold(required, outputs[1..]);
    }
  }

  /** The answers say the words of every one of them, wherever one says nothing. */
  lemma {:induction false} WordsOfAnswers(outputs: seq<string>)
    ensures WordsOf(Answers(outputs)) == WordsOfAll(outputs)
    decreases |outputs|
  {
    if outputs != [] {
      var rest := Answers(outputs[1..]);
      WordsOfAnswers(outputs[1..]);
      if outputs[0] != [] {
        WordsSpace(' ', outputs[0] + rest);
        assert " " + outputs[0] + rest == [' '] + (outputs[0] + rest);
        WordsAppend(outputs[0], rest);
      }
    }
  }

  lemma {:induction false} WordOfAll(outputs: seq<string>, i: nat, w: string)
    requires i < |outputs| && w in WordsOf(outputs[i])
    ensures w in WordsOfAll(outputs)
    decreases |outputs|
  {
    if i > 0 {
      WordOfAll(outputs[1..], i - 1, w);
    }
  }

  /** What the query comes to: the words of the configured value and of every answer, in order,
      less those inside an earlier one; so each of them is inside a word of the result. */
  lemma QuerySays(required: string, outputs: seq<string>)
    ensures var final := Normal(required + Answers(outputs));
            && WordsOf(final) == Keep([], WordsOf(required) + WordsOfAll(outputs))
            && (forall w :: w in WordsOf(required) ==> Covered(WordsOf(final), w))
            && forall i, w :: 0 <= i < |outputs| && w in WordsOf(outputs[i]) ==> Covered(WordsOf(final), w)
  {
    var text := required + Answers(outputs);
    WordsOfNormal(text);
    WordsAppend(required, Answers(outputs));
    WordsOfAnswers(outputs);
    var words := WordsOf(required) + WordsOfAll(outputs);
    assert WordsOf(text) == words;
    WordsOfAreWords(text);
    KeepCovers([], words);
    forall i, w | 0 <= i < |outputs| && w in WordsOf(outputs[i])
      ensures w in words
    {
      WordOfAll(outputs, i, w);
    }
  }

  /** Append every answer that says something, after a blank. */
  method QueryExecutors(required: string, outputs: seq<string>) returns (deps: string)
    requires |required + Answers(outputs)| < BUFFER_LEN - 1
    ensures deps == required + Answers(outputs)
  {
    deps := Truncate(required);
    var i := 0;
    assert outputs[0..] == outputs;
    while i < |outputs|
      invariant i <= |outputs| && deps + Answers(outputs[i..]) == required + Answers(outputs)
    {
      assert outputs[i..][1..] == outputs[i + 1..];
      if outputs[i] != [] {
        assert deps + Answers(outputs[i..]) == deps + " " + outputs[i] + Answers(outputs[i + 1..]);
        deps := Truncate(deps + " ");
        deps := Truncate(deps + outputs[i]);
      }
      i := i + 1;
    }
  }

  /** The query: the configured value, then every answer, normalised. */
  method Query(required: string, outputs: seq<string>) returns (final: string)
    requires TotalLength(required, outputs) < BUFFER_LEN - 1
    requires NUL !in required && forall o :: o in outputs ==> NUL !in o
    ensures final == Normal(required + Answers(outputs))
    ensures WordsOf(final) == Keep([], WordsOf(required) + WordsOfAll(outputs))
    ensures forall w :: w in WordsOf(required) ==> Covered(WordsOf(final), w)
    ensures forall i, w :: 0 <= i < |outputs| && w in WordsOf(outputs[i]) ==> Covered(WordsOf(final), w)
  {
    AnswersHold(required, outputs);
    var deps := QueryExecutors(required, outputs);
    final := Dedup(deps);
    QuerySays(required, outputs);
  }

  /** Found means: there is a text before and a text behind. */
  lemma ContainsIff(text: string, needle: string)
    ensures Contains(text, needle) <==> exists a: string, b: string :: text == a + needle + b
  {
    if i :| 0 <= i <= |text| && FoundAt(text, needle, i) {
      assert text == text[..i] + needle + text[i + |needle|..];
    }
    if a: string, b: string :| text == a + needle + b {
      assert FoundAt(text, needle, |a|);
    }
  }
}
