/** The answer post-processor of the inference client.

    Python's `re.search(r"(?i)(?<=\banswer:\s).*", text)` finds the leftmost
    position p such that the eight characters before p are a word boundary,
    a case-insensitive `answer:` and one whitespace character; the match is
    then `.*` from p, which stops at the first newline. With no such position
    the text is returned as it is.
 */
module AnswerText {

  datatype Option<T> = None | Some(value: T)

  /** `\w`: letters, digits and underscore (ASCII only; see README). */
  predicate IsWordChar(c: char) {
    ('a' <= c <= 'z') || ('A' <= c <= 'Z') || ('0' <= c <= '9') || c == '_'
  }

  /** `\s` on a Python `str`: the characters for which `str.isspace()` holds. */
  predicate IsSpace(c: char) {
    ('\t' <= c <= '\r') || ('\U{1C}' <= c <= ' ') || c == '\U{85}' || c == '\U{A0}'
    || c == '\U{1680}' || ('\U{2000}' <= c <= '\U{200A}') || c == '\U{2028}' || c == '\U{2029}'
    || c == '\U{202F}' || c == '\U{205F}' || c == '\U{3000}'
  }

  /** Simple case folding of an ASCII upper-case letter; every other character is its own fold.
      Folding never moves a character into or out of `\w` or `\s`. */
  function Fold(c: char): (f: char)
    ensures IsWordChar(f) == IsWordChar(c) && IsSpace(f) == IsSpace(c)
  {
    if 'A' <= c <= 'Z' then (c as int + 32) as char else c
  }

  /** Character equality under IGNORECASE. */
  predicate EqIgnoreCase(c: char, d: char) {
    Fold(c) == Fold(d)
  }

  /** The literal part of the look-behind. */
  const Marker: string := "answer:"

  /** `\b` at position i of text: exactly one of the neighbouring characters is a word character. */
  predicate AtWordBoundary(text: string, i: nat)
    requires i <= |text|
  {
    (i > 0 && IsWordChar(text[i - 1])) != (i < |text| && IsWordChar(text[i]))
  }

  /** The look-behind `\banswer:\s` succeeds at position p. */
  predicate MarkerEndsAt(text: string, p: nat) {
    && |Marker| + 1 <= p <= |text|
    && AtWordBoundary(text, p - |Marker| - 1)
    && (forall k :: 0 <= k < |Marker| ==> EqIgnoreCase(text[p - |Marker| - 1 + k], Marker[k]))
    && IsSpace(text[p - 1])
  }

  /** The leftmost position at or after `from` where the look-behind succeeds. */
  function FindMarkerFrom(text: string, from: nat): (r: Option<nat>)
    requires from <= |text| + 1
    ensures r.Some? ==> from <= r.value <= |text| && MarkerEndsAt(text, r.value)
    ensures r.Some? ==> forall q :: from <= q < r.value ==> !MarkerEndsAt(text, q)
    ensures r.None? ==> forall q :: from <= q ==> !MarkerEndsAt(text, q)
    decreases |text| + 1 - from
  {
    if from > |text| then None
    else if MarkerEndsAt(text, from) then Some(from)
    else FindMarkerFrom(text, from + 1)
  }

  /** Where `re.search` anchors its match, if anywhere. */
  function FirstMarkerEnd(text: string): (r: Option<nat>)
    ensures r.Some? ==> MarkerEndsAt(text, r.value)
    ensures r.Some? ==> forall q: nat :: q < r.value ==> !MarkerEndsAt(text, q)
    ensures r.None? ==> forall q :: !MarkerEndsAt(text, q)
  {
    FindMarkerFrom(text, 0)
  }

  /** Where `.*` started at p stops: the first newline at or after p, or the end of the text. */
  function LineEnd(text: string, p: nat): (q: nat)
    requires p <= |text|
    ensures p <= q <= |text|
    ensures forall k :: p <= k < q ==> text[k] != '\n'
    ensures q < |text| ==> text[q] == '\n'
    decreases |text| - p
  {
    if p == |text| || text[p] == '\n' then p else LineEnd(text, p + 1)
  }

  /** `post_process`: the rest of the line after the first answer marker, or the text unchanged. */
  function PostProcess(text: string): (r: string)
    ensures |r| <= |text|
  {
    match FirstMarkerEnd(text)
    case None => text
    case Some(p) => text[p..LineEnd(text, p)]
  }

  /** With a marker, the result is the rest of the line that starts after the leftmost marker
      and its one whitespace character; it may be empty and never holds a newline. */
  lemma PostProcessMarked(text: string, p: nat)
    requires MarkerEndsAt(text, p)
    requires forall q: nat :: q < p ==> !MarkerEndsAt(text, q)
    ensures exists q :: p <= q <= |text| && PostProcess(text) == text[p..q]
                        && (q < |text| ==> text[q] == '\n')
    ensures '\n' !in PostProcess(text)
  {
    assert FirstMarkerEnd(text) == Some(p);
    var q := LineEnd(text, p);
    assert PostProcess(text) == text[p..q];
    forall i | 0 <= i < q - p ensures PostProcess(text)[i] != '\n' {
      assert PostProcess(text)[i] == text[p + i];
    }
  }

  /** The result is always a contiguous piece of the input. */
  lemma PostProcessIsSubstring(text: string)
    ensures exists i, j :: 0 <= i <= j <= |text| && PostProcess(text) == text[i..j]
  {
    match FirstMarkerEnd(text)
    case None =>
      assert PostProcess(text) == text[0..|text|];
    case Some(p) =>
      assert PostProcess(text) == text[p..LineEnd(text, p)];
  }

  /** The text comes back unchanged exactly when it holds no marker: a marker ends at least
      eight characters into the text, so a match always drops something. */
  lemma PostProcessIdentityIff(text: string)
    ensures PostProcess(text) == text <==> forall p :: !MarkerEndsAt(text, p)
  {
    match FirstMarkerEnd(text)
    case None =>
    case Some(p) =>
      assert |PostProcess(text)| <= |text| - p < |text|;
  }

  /** A marker glued to a preceding letter, digit or underscore does not count. */
  lemma MarkerNeedsWordBoundary(text: string, p: nat)
    requires |Marker| + 2 <= p <= |text|
    requires IsWordChar(text[p - |Marker| - 2])
    ensures !MarkerEndsAt(text, p)
  {
    var b := p - |Marker| - 1;
    if EqIgnoreCase(text[b], Marker[0]) {
      assert IsWordChar(text[b]);
    }
  }

  /** Two texts equal up to ASCII case have their markers at the same places. */
  predicate SameUpToCase(s: string, t: string) {
    |s| == |t| && forall i :: 0 <= i < |s| ==> Fold(s[i]) == Fold(t[i])
  }

  lemma FoldKeepsClasses(c: char, d: char)
    requires Fold(c) == Fold(d)
    ensures IsWordChar(c) == IsWordChar(d) && IsSpace(c) == IsSpace(d)
  {
  }

  lemma MarkerIgnoresCaseAt(s: string, t: string, p: nat)
    requires SameUpToCase(s, t)
    ensures MarkerEndsAt(s, p) == MarkerEndsAt(t, p)
  {
    if |Marker| + 1 <= p <= |s| {
      var b := p - |Marker| - 1;
      if b > 0 { FoldKeepsClasses(s[b - 1], t[b - 1]); }
      FoldKeepsClasses(s[b], t[b]);
      FoldKeepsClasses(s[p - 1], t[p - 1]);
      assert AtWordBoundary(s, b) == AtWordBoundary(t, b);
      assert (forall k :: 0 <= k < |Marker| ==> EqIgnoreCase(s[b + k], Marker[k]))
        == (forall k :: 0 <= k < |Marker| ==> EqIgnoreCase(t[b + k], Marker[k]));
    }
  }

  lemma {:induction false} FindMarkerIgnoresCase(s: string, t: string, from: nat)
    requires SameUpToCase(s, t) && from <= |s| + 1
    ensures FindMarkerFrom(s, from) == FindMarkerFrom(t, from)
    decreases |s| + 1 - from
  {
    if from <= |s| {
      MarkerIgnoresCaseAt(s, t, from);
      FindMarkerIgnoresCase(s, t, from + 1);
    }
  }

  /** Marker matching ignores case: `ANSWER:` and `Answer:` are found where `answer:` would be. */
  lemma MarkerIgnoresCase(s: string, t: string)
    requires SameUpToCase(s, t)
    ensures FirstMarkerEnd(s) == FirstMarkerEnd(t)
  {
    FindMarkerIgnoresCase(s, t, 0);
  }

  lemma LineEndWithoutNewline(text: string, p: nat)
    requires p <= |text|
    requires forall k :: p <= k < |text| ==> text[k] != '\n'
    ensures LineEnd(text, p) == |text|
  {
  }

  lemma MarkerAtStart(text: string)
    requires |text| >= 8 && IsSpace(text[7])
    requires forall k :: 0 <= k < 7 ==> Fold(text[k]) == Marker[k]
    ensures FirstMarkerEnd(text) == Some(8)
  {
    assert IsWordChar(text[0]) by { assert Fold(text[0]) == 'a'; }
    assert MarkerEndsAt(text, 8);
  }

  lemma LineEndAtNewline(text: string, p: nat, q: nat)
    requires p <= q < |text| && text[q] == '\n'
    requires forall k :: p <= k < q ==> text[k] != '\n'
    ensures LineEnd(text, p) == q
  {
  }

  /** `"ANSWER:   Paris, France"` keeps two of its three spaces, because the look-behind
      consumes exactly one whitespace character. */
  lemma PostProcessKeepsExtraSpaces()
    ensures PostProcess("ANSWER:   Paris, France") == "  Paris, France"
  {
    var t := "ANSWER:   Paris, France";
    MarkerAtStart(t);
    LineEndWithoutNewline(t, 8);
    assert t[8..] == "  Paris, France" by {
      forall i | 0 <= i < |t| - 8 ensures t[8..][i] == "  Paris, France"[i] { assert t[8 + i] == "  Paris, France"[i]; }
    }
  }

  /** A reply that is a lower-case marker and one line gives that line. */
  lemma PostProcessAfterLowerMarker(line: string)
    requires '\n' !in line
    ensures PostProcess("answer: " + line) == line
  {
    var text := "answer: " + line;
    forall k | 0 <= k < 7 ensures Fold(text[k]) == Marker[k] {
      assert text[k] == Marker[k];
    }
    MarkerAtStart(text);
    LineEndWithoutNewline(text, 8);
    assert text[8..] == line;
  }

  /** Post-processing is not idempotent: a second pass strips a second marker. */
  lemma PostProcessNotIdempotent()
    ensures PostProcess("answer: answer: x") == "answer: x"
    ensures PostProcess(PostProcess("answer: answer: x")) == "x"
  {
    PostProcessAfterLowerMarker("answer: x");
    assert "answer: " + "answer: x" == "answer: answer: x";
    PostProcessAfterLowerMarker("x");
    assert "answer: " + "x" == "answer: x";
  }

  /** A marker inside a word is not a marker: the text comes back unchanged. */
  lemma PostProcessIgnoresMarkerInsideWord()
    ensures PostProcess("xanswer: y") == "xanswer: y"
  {
    var t := "xanswer: y";
    forall q ensures !MarkerEndsAt(t, q) {
      if q == 9 {
        MarkerNeedsWordBoundary(t, 9);
      } else if 8 <= q <= 10 {
        assert !IsSpace(t[q - 1]);
      }
    }
    PostProcessIdentityIff(t);
  }

  /** A reply that opens with `Answer: ` yields exactly the rest of that first line. */
  lemma PostProcessReturnsMarkedLine(answer: string, rest: string)
    requires '\n' !in answer
    ensures PostProcess("Answer: " + answer + "\n" + rest) == answer
  {
    var text := "Answer: " + answer + "\n" + rest;
    var stop := 8 + |answer|;
    assert text[..8] == "Answer: ";
    MarkerAtStart(text);
    forall k | 8 <= k < stop ensures text[k] != '\n' {
      assert text[k] == answer[k - 8];
    }
    LineEndAtNewline(text, 8, stop);
    assert text[8..stop] == answer;
  }

  /** A marker ending inside the first |pre| characters depends on those characters only. */
  lemma MarkerInPrefix(pre: string, s: string, q: nat)
    requires q <= |pre|
    ensures MarkerEndsAt(pre + s, q) == MarkerEndsAt(pre, q)
  {
    var text := pre + s;
    if |Marker| + 1 <= q {
      var b := q - |Marker| - 1;
      assert AtWordBoundary(text, b) == AtWordBoundary(pre, b);
      assert (forall k :: 0 <= k < |Marker| ==> EqIgnoreCase(text[b + k], Marker[k]))
        == (forall k :: 0 <= k < |Marker| ==> EqIgnoreCase(pre[b + k], Marker[k]));
    }
  }

  /** No marker ends inside an `Answer: ` written at n: none of its first seven characters is
      whitespace. */
  lemma NoMarkerInsideAnswer(text: string, n: nat)
    requires n + 8 <= |text| && text[n..n + 8] == "Answer: "
    ensures forall q :: n < q < n + 8 ==> !MarkerEndsAt(text, q)
  {
    forall q | n < q < n + 8 ensures !MarkerEndsAt(text, q) {
      assert text[q - 1] == text[n..n + 8][q - 1 - n];
    }
  }

  /** An `Answer: ` at n, preceded by the start of the text or a non-word character, is a marker. */
  lemma AnswerIsMarker(text: string, n: nat)
    requires n + 8 <= |text| && text[n..n + 8] == "Answer: "
    requires n == 0 || !IsWordChar(text[n - 1])
    ensures MarkerEndsAt(text, n + 8)
  {
    forall k | 0 <= k < 8 ensures text[n + k] == "Answer: "[k] {
      assert text[n + k] == text[n..n + 8][k];
    }
    assert IsWordChar(text[n]);
  }

  /** After a text with no marker and no trailing word character, `Answer: ` is the first marker. */
  lemma MarkerAfterPrefix(pre: string, rest: string)
    requires forall q :: !MarkerEndsAt(pre, q)
    requires pre == [] || !IsWordChar(pre[|pre| - 1])
    requires |rest| >= 8 && rest[..8] == "Answer: "
    ensures FirstMarkerEnd(pre + rest) == Some(|pre| + 8)
  {
    var text := pre + rest;
    var n := |pre|;
    assert text[n..n + 8] == rest[..8];
    NoMarkerInsideAnswer(text, n);
    AnswerIsMarker(text, n);
    forall q: nat | q <= n ensures !MarkerEndsAt(text, q) {
      MarkerInPrefix(pre, rest, q);
    }
  }

  /** A marker in the middle of a reply: when the text before `Answer: ` holds no marker and
      does not end in a word character, the result is exactly the line after the marker. */
  lemma PostProcessReturnsLineAfterMarker(pre: string, line: string, tail: string)
    requires forall q :: !MarkerEndsAt(pre, q)
    requires pre == [] || !IsWordChar(pre[|pre| - 1])
    requires '\n' !in line
    requires tail == [] || tail[0] == '\n'
    ensures PostProcess(pre + "Answer: " + line + tail) == line
  {
    var rest := "Answer: " + line + tail;
    var text := pre + rest;
    assert pre + "Answer: " + line + tail == text;
    assert rest[..8] == "Answer: ";
    MarkerAfterPrefix(pre, rest);
    var p := |pre| + 8;
    var stop := p + |line|;
    forall k | p <= k < stop ensures text[k] != '\n' {
      assert text[k] == line[k - p];
    }
    if tail == [] {
      LineEndWithoutNewline(text, p);
    } else {
      assert text[stop] == tail[0];
      LineEndAtNewline(text, p, stop);
    }
    assert text[p..stop] == line;
  }

  /** `"The capital is Answer: Paris"` gives `"Paris"`. */
  lemma PostProcessMarkerMidSentence()
    ensures PostProcess("The capital is Answer: Paris") == "Paris"
  {
    var pre := "The capital is ";
    forall q ensures !MarkerEndsAt(pre, q) {
      if q == 12 {
        assert !EqIgnoreCase(pre[4], Marker[0]);
      } else if q == 15 {
        assert !EqIgnoreCase(pre[7], Marker[0]);
      } else if 8 <= q <= 15 {
        assert !IsSpace(pre[q - 1]);
      }
    }
    PostProcessReturnsLineAfterMarker(pre, "Paris", "");
    assert pre + "Answer: " + "Paris" + "" == "The capital is Answer: Paris";
  }
}
