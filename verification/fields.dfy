/** Go's `strings.Fields`: a line is split around each maximal run of
    white space, as `unicode.IsSpace` defines it. `JoinWords` is the
    partner used to state what a well-formed line splits into. */
module Whitespace {

  /** `unicode.IsSpace`: the Latin-1 blanks, then the Unicode White_Space
      characters above U+00FF. */
  predicate IsSpace(c: char) {
    c == ' ' || c == '\t' || c == '\n' || c == '\U{0B}' || c == '\U{0C}' || c == '\r'
    || c == '\U{85}' || c == '\U{A0}' || c == '\U{1680}'
    || ('\U{2000}' <= c <= '\U{200A}')
    || c == '\U{2028}' || c == '\U{2029}' || c == '\U{202F}' || c == '\U{205F}' || c == '\U{3000}'
  }

  /** A field: non-empty, with no white space inside. */
  predicate IsWord(w: string) {
    |w| > 0 && forall i :: 0 <= i < |w| ==> !IsSpace(w[i])
  }

  /** Length of the run of non-space characters at the front of `s`. */
  function WordLen(s: string): (n: nat)
    decreases |s|
    ensures n <= |s|
    ensures forall i :: 0 <= i < n ==> !IsSpace(s[i])
    ensures n == |s| || IsSpace(s[n])
  {
    if |s| == 0 || IsSpace(s[0]) then 0 else 1 + WordLen(s[1..])
  }

  function Fields(s: string): (r: seq<string>)
    decreases |s|
    ensures forall k :: 0 <= k < |r| ==> IsWord(r[k])
  {
    if |s| == 0 then []
    else if IsSpace(s[0]) then Fields(s[1..])
    else
      var n := WordLen(s);
      [s[..n]] + Fields(s[n..])
  }

  /** The words separated by single blanks. */
  function JoinWords(ws: seq<string>): (s: string)
    decreases |ws|
  {
    if |ws| == 0 then ""
    else if |ws| == 1 then ws[0]
    else ws[0] + " " + JoinWords(ws[1..])
  }

  lemma {:induction false} WordLenOfWord(w: string, t: string)
    requires IsWord(w)
    requires |t| == 0 || IsSpace(t[0])
    ensures WordLen(w + t) == |w|
    decreases |w|
  {
    if |w| > 1 {
      assert (w + t)[1..] == w[1..] + t;
      WordLenOfWord(w[1..], t);
    } else {
      assert (w + t)[1..] == t;
    }
  }

  /** A word followed by white space (or by nothing) is one field. */
  lemma FieldsOfWordThen(w: string, t: string)
    requires IsWord(w)
    requires |t| == 0 || IsSpace(t[0])
    ensures Fields(w + t) == [w] + Fields(t)
  {
    WordLenOfWord(w, t);
    assert (w + t)[..|w|] == w;
    assert (w + t)[|w|..] == t;
  }

  /** A leading white-space character is dropped by the split. */
  lemma FieldsSkipSpace(c: char, rest: string)
    requires IsSpace(c)
    ensures Fields([c] + rest) == Fields(rest)
  {
    assert ([c] + rest)[1..] == rest;
  }

  /** Unfolding `JoinWords` once, with a tail appended. */
  lemma JoinThenStep(ws: seq<string>, t: string)
    requires |ws| > 1
    ensures JoinWords(ws) + t == ws[0] + ([' '] + (JoinWords(ws[1..]) + t))
  {
  }

  /** Joining words with blanks and following them with white space splits
      back into exactly those words. */
  lemma {:induction false} FieldsJoinThen(ws: seq<string>, t: string)
    requires |ws| > 0
    requires forall k :: 0 <= k < |ws| ==> IsWord(ws[k])
    requires |t| == 0 || IsSpace(t[0])
    ensures Fields(JoinWords(ws) + t) == ws + Fields(t)
    decreases |ws|
  {
    if |ws| == 1 {
      FieldsOfWordThen(ws[0], t);
    } else {
      var tail := ws[1..];
      var rest := JoinWords(tail) + t;
      assert forall k :: 0 <= k < |tail| ==> IsWord(tail[k]) by {
        forall k | 0 <= k < |tail| ensures IsWord(tail[k]) { assert tail[k] == ws[k + 1]; }
      }
      calc {
        Fields(JoinWords(ws) + t);
        { JoinThenStep(ws, t); }
        Fields(ws[0] + ([' '] + rest));
        { FieldsOfWordThen(ws[0], [' '] + rest); }
        [ws[0]] + Fields([' '] + rest);
        { FieldsSkipSpace(' ', rest); }
        [ws[0]] + Fields(rest);
        { FieldsJoinThen(tail, t); }
        [ws[0]] + (tail + Fields(t));
        { assert [ws[0]] + tail == ws; }
        ws + Fields(t);
      }
    }
  }

  /** `strings.Fields` undoes `JoinWords` on well-formed words. */
  lemma FieldsJoinRoundTrip(ws: seq<string>)
    requires forall k :: 0 <= k < |ws| ==> IsWord(ws[k])
    ensures Fields(JoinWords(ws)) == ws
  {
    if |ws| > 0 {
      FieldsJoinThen(ws, "");
      assert JoinWords(ws) + "" == JoinWords(ws);
    }
  }

  /** A protocol line: the words, single blanks, and the closing newline. */
  lemma FieldsOfLine(ws: seq<string>)
    requires |ws| > 0
    requires forall k :: 0 <= k < |ws| ==> IsWord(ws[k])
    ensures Fields(JoinWords(ws) + "\n") == ws
  {
    FieldsJoinThen(ws, "\n");
    assert Fields("\n") == Fields("\n"[1..]) == [];
  }

  lemma JoinFive(a: string, b: string, c: string, d: string, e: string)
    ensures JoinWords([a, b, c, d, e]) == a + " " + b + " " + c + " " + d + " " + e
  {
    var ws := [a, b, c, d, e];
    assert ws[1..] == [b, c, d, e];
    assert ws[2..] == [c, d, e];
    assert ws[3..] == [d, e];
    assert ws[4..] == [e];
    assert JoinWords([d, e]) == d + " " + e;
    assert JoinWords([c, d, e]) == c + " " + (d + " " + e);
    assert JoinWords([b, c, d, e]) == b + " " + (c + " " + (d + " " + e));
    assert JoinWords(ws) == a + " " + (b + " " + (c + " " + (d + " " + e)));
  }

  lemma JoinSix(a: string, b: string, c: string, d: string, e: string, f: string)
    ensures JoinWords([a, b, c, d, e, f]) == a + " " + b + " " + c + " " + d + " " + e + " " + f
  {
    var ws := [a, b, c, d, e, f];
    assert ws[1..] == [b, c, d, e, f];
    JoinFive(b, c, d, e, f);
    assert JoinWords(ws) == a + " " + (b + " " + c + " " + d + " " + e + " " + f);
  }

}
