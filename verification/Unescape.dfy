/**
 The chain of `str.replace` calls that unescapes an exported document, against one left-to-right
 pass that drops a backslash standing directly before an escaped character.
 In Dafny's text '§' is the placeholder's section sign.
 */
module Unescape {

  predicate StartsWith(t: string, p: string) {
    |p| <= |t| && forall i :: 0 <= i < |p| ==> t[i] == p[i]
  }

  /** `t.replace(old, new)`: leftmost, non-overlapping. */
  function Replace(t: string, pattern: string, to: string): string
    requires pattern != ""
    decreases |t|
  {
    if t == "" then ""
    else if StartsWith(t, pattern) then to + Replace(t[|pattern|..], pattern, to)
    else [t[0]] + Replace(t[1..], pattern, to)
  }

  const BOLD := "\U{A7}BOLD\U{A7}"
  const ESCAPED_BOLD := "\\*\\*"

  /** The characters unescaped after the asterisk, in the order of the calls. */
  const OTHERS := "#-.>|[]()"

  /** `t.replace("\\c", "c")`. */
  function UnescapeChar(t: string, c: char): string {
    Replace(t, ['\\', c], [c])
  }

  function Bolded(t: string): string {
    Replace(UnescapeChar(Replace(t, ESCAPED_BOLD, BOLD), '*'), BOLD, "**")
  }

  function UnescapeEach(t: string, chars: string): string
    decreases |chars|
  {
    if chars == "" then t else UnescapeEach(UnescapeChar(t, chars[0]), chars[1..])
  }

  /** The whole chain of the script. */
  function Chain(t: string): string {
    UnescapeEach(Bolded(t), OTHERS)
  }

  /** One pass: drop a backslash that stands directly before a character of `chars`. */
  function OnePass(t: string, chars: string): string
    decreases |t|
  {
    if t == "" then ""
    else if t[0] == '\\' && |t| > 1 && t[1] in chars then [t[1]] + OnePass(t[2..], chars)
    else [t[0]] + OnePass(t[1..], chars)
  }

  const ESCAPABLE := "*#-.>|[]()"

  // ---------------------------------------------------------------- the asterisk and its placeholder

  /** The placeholder spelled out in the text, or all of it but its end directly before an escaped
      bold mark: where step three would take text for placeholder. */
  predicate Ambiguous(t: string) {
    StartsWith(t, BOLD) || StartsWith(t, "\U{A7}BOLD\\*\\*")
  }

  predicate Unambiguous(t: string) {
    forall i :: 0 <= i <= |t| ==> !Ambiguous(t[i..])
  }

  /** The first two replacements at once. */
  function Marked(t: string): string
    decreases |t|
  {
    if t == "" then ""
    else if StartsWith(t, ESCAPED_BOLD) then BOLD + Marked(t[4..])
    else if StartsWith(t, "\\*") then "*" + Marked(t[2..])
    else [t[0]] + Marked(t[1..])
  }

  lemma {:induction false} ReplaceSkips(prefix: string, t: string, pattern: string, to: string)
    requires pattern != "" && pattern[0] !in prefix
    ensures Replace(prefix + t, pattern, to) == prefix + Replace(t, pattern, to)
  {
    if prefix == "" {
      assert prefix + t == t;
    } else {
      var s := prefix + t;
      assert s[0] == prefix[0] && s[1..] == prefix[1..] + t;
      assert !StartsWith(s, pattern);
      ReplaceSkips(prefix[1..], t, pattern, to);
    }
  }

  /** Marking never produces an asterisk as first character of something that did not start with
      `\*` or `*`. */
  lemma BoldStart(t: string)
    ensures var r := Replace(t, ESCAPED_BOLD, BOLD);
            (t == "" <==> r == "") && (t != "" && t[0] != '*' ==> r[0] != '*')
  {}

  lemma {:induction false} MarkedIsTwoSteps(t: string)
    ensures UnescapeChar(Replace(t, ESCAPED_BOLD, BOLD), '*') == Marked(t)
    decreases |t|
  {
    var step := Replace(t, ESCAPED_BOLD, BOLD);
    if t == "" {
    } else if StartsWith(t, ESCAPED_BOLD) {
      MarkedIsTwoSteps(t[4..]);
      ReplaceSkips(BOLD, Replace(t[4..], ESCAPED_BOLD, BOLD), "\\*", "*");
    } else if StartsWith(t, "\\*") {
      MarkedIsTwoSteps(t[2..]);
      var rest := Replace(t[2..], ESCAPED_BOLD, BOLD);
      assert t[0] == '\\' && t[1] == '*' && t[1..][1..] == t[2..];
      assert !StartsWith(t[1..], ESCAPED_BOLD);
      assert Replace(t[1..], ESCAPED_BOLD, BOLD) == "*" + rest;
      assert step == "\\" + ("*" + rest);
      assert step[..2] == "\\*" && step[2..] == rest;
    } else {
      MarkedIsTwoSteps(t[1..]);
      var rest := Replace(t[1..], ESCAPED_BOLD, BOLD);
      assert step == [t[0]] + rest && step[1..] == rest;
      BoldStart(t[1..]);
      assert t[0] == '\\' && |t| > 1 ==> t[..2] == ['\\', t[1]];
      assert !StartsWith(step, "\\*");
    }
  }

  /** A letter of the placeholder in the marked text comes from the same letter of the text. */
  lemma MarkedLetter(t: string)
    ensures (t == "" <==> Marked(t) == "")
    ensures t != "" && Marked(t)[0] !in {'*', '\U{A7}'} ==> t[0] == Marked(t)[0] && Marked(t)[1..] == Marked(t[1..])
    ensures t != "" && Marked(t)[0] == '\U{A7}' ==> t[0] == '\U{A7}' || StartsWith(t, ESCAPED_BOLD)
  {}

  /** So a run of such letters at the head of the marked text heads the text too. */
  lemma {:induction false} MarkedPrefix(t: string, p: string)
    requires StartsWith(Marked(t), p) && '*' !in p && '\U{A7}' !in p
    ensures |p| <= |t| && t[..|p|] == p && Marked(t)[|p|..] == Marked(t[|p|..])
    decreases |p|
  {
    if p != "" {
      var m := Marked(t);
      MarkedLetter(t);
      hide Marked;
      assert m[1..][..|p| - 1] == m[..|p|][1..];
      assert p[0] in p && forall c :: c in p[1..] ==> c in p;
      MarkedPrefix(t[1..], p[1..]);
      assert t[1..][|p| - 1..] == t[|p|..] && t[..|p|] == [t[0]] + t[1..][..|p| - 1];
      assert m[|p|..] == m[1..][|p| - 1..];
    }
  }

  lemma {:induction false} MarkedKeeps(p: string, u: string)
    requires '\\' !in p
    ensures Marked(p + u) == p + Marked(u)
  {
    if p == "" {
      assert p + u == u;
    } else {
      assert (p + u)[0] == p[0] && p[0] in p && (p + u)[1..] == p[1..] + u;
      MarkedKeeps(p[1..], u);
      NotEscape(p + u);
      hide Marked;
    }
  }

  lemma NotEscape(t: string)
    requires t != "" && t[0] != '\\'
    ensures Marked(t) == [t[0]] + Marked(t[1..])
  {
  }

  const SIGN_BOLD := "\U{A7}BOLD"

  /** The marked text shows a placeholder where the text has a section sign only if it is ambiguous there. */
  lemma PlaceholderOrigin(t: string)
    requires t != "" && t[0] == '\U{A7}' && StartsWith(Marked(t), BOLD)
    ensures Ambiguous(t)
  {
    hide Marked;
    var m, u := Marked(t), t[1..];
    assert t == [t[0]] + u;
    MarkedKeeps([t[0]], u);
    assert m[1..] == Marked(u);
    assert m[1..][..4] == m[..6][1..5] == "BOLD";
    MarkedPrefix(u, "BOLD");
    assert t[..5] == [t[0]] + u[..4] && u[4..] == t[5..];
    assert Marked(t[5..])[0] == m[..6][5];
    MarkedLetter(t[5..]);
    if t[5] == '\U{A7}' {
      assert t[..6] == t[..5] + [t[5]];
    } else {
      assert t[..9] == t[..5] + t[5..][..4];
    }
  }

  /** How much of the text the chain and the pass take in one step, and what both write for it. */
  function Taken(t: string): nat
    requires t != ""
  {
    if StartsWith(t, ESCAPED_BOLD) then 4 else if StartsWith(t, "\\*") then 2 else 1
  }

  function Written(t: string): string
    requires t != ""
  {
    if StartsWith(t, ESCAPED_BOLD) then "**" else if StartsWith(t, "\\*") then "*" else [t[0]]
  }

  function Restored(t: string): string {
    Replace(Marked(t), BOLD, "**")
  }

  lemma OneOther(t: string)
    requires t != "" && !(|t| > 1 && t[0] == '\\' && t[1] == '*')
    ensures OnePass(t, "*") == [t[0]] + OnePass(t[1..], "*")
  {}

  lemma OneStar(t: string)
    requires |t| > 1 && t[0] == '\\' && t[1] == '*'
    ensures OnePass(t, "*") == "*" + OnePass(t[2..], "*")
  {}

  lemma TwoStars(t: string)
    requires StartsWith(t, ESCAPED_BOLD)
    ensures OnePass(t, "*") == "**" + OnePass(t[4..], "*")
  {
    hide OnePass;
    OneStar(t);
    OneStar(t[2..]);
    assert t[2..][2..] == t[4..];
  }

  lemma PassStep(t: string)
    requires t != ""
    ensures Taken(t) <= |t| && OnePass(t, "*") == Written(t) + OnePass(t[Taken(t)..], "*")
  {
    hide OnePass;
    if StartsWith(t, ESCAPED_BOLD) {
      TwoStars(t);
    } else if StartsWith(t, "\\*") {
      OneStar(t);
    } else {
      OneOther(t);
    }
  }

  lemma ChainStep(t: string)
    requires t != "" && !Ambiguous(t)
    ensures Taken(t) <= |t| && Restored(t) == Written(t) + Restored(t[Taken(t)..])
  {
    var rest := Marked(t[Taken(t)..]);
    if StartsWith(t, ESCAPED_BOLD) {
      assert (BOLD + rest)[..6] == BOLD && (BOLD + rest)[6..] == rest;
    } else if StartsWith(t, "\\*") {
      ReplaceSkips("*", rest, BOLD, "**");
    } else if t[0] == '\U{A7}' {
      if StartsWith(Marked(t), BOLD) {
        PlaceholderOrigin(t);
      }
      assert Marked(t)[1..] == rest;
    } else {
      ReplaceSkips([t[0]], rest, BOLD, "**");
    }
  }

  lemma SuffixUnambiguous(t: string, n: nat)
    requires n <= |t| && Unambiguous(t)
    ensures Unambiguous(t[n..])
  {
    forall i | 0 <= i <= |t[n..]|
      ensures !Ambiguous(t[n..][i..])
    {
      assert t[n..][i..] == t[n + i..];
    }
  }

  /** Without an ambiguity the placeholder has no effect. */
  lemma {:induction false} PlaceholderRestored(t: string)
    requires Unambiguous(t)
    ensures Restored(t) == OnePass(t, "*")
    decreases |t|
  {
    if t != "" {
      hide Marked, Ambiguous;
      assert t[0..] == t;
      ChainStep(t);
      PassStep(t);
      SuffixUnambiguous(t, Taken(t));
      PlaceholderRestored(t[Taken(t)..]);
    }
  }

  lemma AmbiguousHead(t: string)
    requires Ambiguous(t)
    ensures t[0] == '\U{A7}' && Restored(t) != "" && Restored(t)[0] == '*'
    ensures OnePass(t, "*") != "" && OnePass(t, "*")[0] == '\U{A7}'
  {
    var u := t[5..];
    assert t[..5] == SIGN_BOLD by {
      if StartsWith(t, BOLD) {
        assert t[..6][..5] == t[..5];
      } else {
        assert t[..9][..5] == t[..5];
      }
    }
    assert t == SIGN_BOLD + u;
    MarkedKeeps(SIGN_BOLD, u);
    if StartsWith(t, BOLD) {
      assert u[0] == t[..6][5];
    } else {
      assert u[..4] == t[..9][5..];
      assert StartsWith(u, ESCAPED_BOLD);
    }
    assert Marked(u)[0] == '\U{A7}';
    assert Marked(t)[..6] == SIGN_BOLD + [Marked(u)[0]];
    assert StartsWith(Marked(t), BOLD);
    assert t[0] == SIGN_BOLD[0];
  }

  lemma TakenWithoutSign(t: string, i: nat)
    requires 0 < i < |t| && t[i] == '\U{A7}'
    ensures 0 < Taken(t) <= i
  {
    if StartsWith(t, ESCAPED_BOLD) {
      assert forall k :: 0 <= k < 4 ==> t[..4][k] == t[k];
    } else if StartsWith(t, "\\*") {
      assert t[..2][1] == t[1];
    }
  }

  lemma SignAt(t: string, i: nat)
    requires i <= |t| && Ambiguous(t[i..])
    ensures i < |t| && t[i] == '\U{A7}'
  {
    AmbiguousHead(t[i..]);
  }

  /** An ambiguity further on survives one step. */
  lemma StepBeforeAmbiguity(t: string, i: nat)
    requires 0 < i <= |t| && !Ambiguous(t) && Ambiguous(t[i..])
    ensures 0 < Taken(t) <= i && Ambiguous(t[Taken(t)..][i - Taken(t)..])
  {
    SignAt(t, i);
    hide Ambiguous, Taken;
    TakenWithoutSign(t, i);
    assert t[Taken(t)..][i - Taken(t)..] == t[i..];
  }

  /** With an ambiguity the two texts agree up to the first one and then differ. */
  lemma {:induction false} PlaceholderLeaks(t: string) returns (common: string, x: string, y: string)
    requires !Unambiguous(t)
    ensures Restored(t) == common + x && OnePass(t, "*") == common + y
    ensures x != "" && x[0] == '*' && y != "" && y[0] == '\U{A7}'
    decreases |t|
  {
    hide Restored, OnePass, Ambiguous, Written, Taken, StartsWith;
    var i :| 0 <= i <= |t| && Ambiguous(t[i..]);
    if Ambiguous(t) {
      AmbiguousHead(t);
      common, x, y := "", Restored(t), OnePass(t, "*");
    } else {
      assert t[0..] == t && i > 0;
      StepBeforeAmbiguity(t, i);
      ChainStep(t);
      PassStep(t);
      common, x, y := PlaceholderLeaks(t[Taken(t)..]);
      common := Written(t) + common;
    }
  }

  // ---------------------------------------------------------------- the other nine characters

  /** Unescaping one more character after a pass over `chars` is one pass over all of them. */
  lemma {:induction false} OneMoreChar(t: string, chars: string, c: char)
    requires c !in chars && c != '\\' && '\\' !in chars
    ensures UnescapeChar(OnePass(t, chars), c) == OnePass(t, chars + [c])
    decreases |t|
  {
    var pattern := ['\\', c];
    if t == "" {
    } else if t[0] == '\\' && |t| > 1 && t[1] in chars {
      OneMoreChar(t[2..], chars, c);
      ReplaceSkips([t[1]], OnePass(t[2..], chars), pattern, [c]);
    } else if t[0] == '\\' && |t| > 1 && t[1] == c {
      OneMoreChar(t[2..], chars, c);
      var rest := OnePass(t[2..], chars);
      assert t[1..][0] == c && t[1..][1..] == t[2..];
      assert OnePass(t[1..], chars) == [c] + rest;
      assert OnePass(t, chars) == ['\\'] + ([c] + rest);
      assert OnePass(t, chars)[..2] == pattern && OnePass(t, chars)[2..] == rest;
    } else if t[0] == '\\' {
      OneMoreChar(t[1..], chars, c);
      var rest := OnePass(t[1..], chars);
      assert rest != "" ==> rest[0] != c;
      assert OnePass(t, chars) == ['\\'] + rest && OnePass(t, chars)[1..] == rest;
      assert !StartsWith(OnePass(t, chars), pattern);
    } else {
      OneMoreChar(t[1..], chars, c);
      ReplaceSkips([t[0]], OnePass(t[1..], chars), pattern, [c]);
    }
  }

  predicate Distinct(s: string) {
    forall i, j :: 0 <= i < j < |s| ==> s[i] != s[j]
  }

  lemma {:induction false} EachIsOnePass(t: string, chars: string, more: string)
    requires Distinct(chars + more) && '\\' !in chars + more
    ensures UnescapeEach(OnePass(t, chars), more) == OnePass(t, chars + more)
    decreases |more|
  {
    if more == "" {
      assert chars + more == chars;
    } else {
      var all := chars + more;
      assert more[0] == all[|chars|];
      assert forall k :: 0 <= k < |chars| ==> chars[k] == all[k];
      assert forall k :: 0 <= k < |chars| ==> all[k] in all;
      assert all[|chars|] in all;
      OneMoreChar(t, chars, more[0]);
      assert chars + more == (chars + [more[0]]) + more[1..];
      EachIsOnePass(t, chars + [more[0]], more[1..]);
    }
  }

  lemma {:induction false} EmptyPass(t: string)
    ensures OnePass(t, "") == t
    decreases |t|
  {
    if t != "" {
      EmptyPass(t[1..]);
    }
  }

  lemma {:induction false} PassSplits(common: string, x: string, chars: string)
    requires x != "" && x[0] !in chars
    ensures OnePass(common + x, chars) == OnePass(common, chars) + OnePass(x, chars)
    decreases |common|
  {
    hide OnePass;
    var s := common + x;
    if common == "" {
      assert s == x;
      EmptyPassed(chars);
    } else {
      assert s[0] == common[0] && s[1..] == common[1..] + x;
      if common[0] == '\\' && |common| > 1 && common[1] in chars {
        assert s[1] == common[1] && s[2..] == common[2..] + x;
        Dropped(s, chars);
        Dropped(common, chars);
        PassSplits(common[2..], x, chars);
      } else {
        assert s[1] == if |common| == 1 then x[0] else common[1];
        Kept(s, chars);
        Kept(common, chars);
        PassSplits(common[1..], x, chars);
      }
    }
  }

  lemma EmptyPassed(chars: string)
    ensures OnePass("", chars) == ""
  {}

  lemma Dropped(t: string, chars: string)
    requires |t| > 1 && t[0] == '\\' && t[1] in chars
    ensures OnePass(t, chars) == [t[1]] + OnePass(t[2..], chars)
  {}

  lemma Kept(t: string, chars: string)
    requires t != "" && !(|t| > 1 && t[0] == '\\' && t[1] in chars)
    ensures OnePass(t, chars) == [t[0]] + OnePass(t[1..], chars)
  {}

  lemma DifferAfter(common: string, x: string, y: string)
    requires x != "" && y != "" && x[0] != y[0]
    ensures common + x != common + y
  {
    assert (common + x)[|common|] != (common + y)[|common|];
  }

  lemma PassHead(x: string, chars: string)
    requires x != "" && x[0] != '\\'
    ensures OnePass(x, chars) != "" && OnePass(x, chars)[0] == x[0]
  {}

  lemma EscapesDistinct()
    ensures Distinct(OTHERS) && Distinct(ESCAPABLE) && '\\' !in OTHERS && '\\' !in ESCAPABLE
  {}

  lemma ChainIsTwoPasses(t: string)
    ensures Chain(t) == OnePass(Restored(t), OTHERS)
    ensures OnePass(t, ESCAPABLE) == OnePass(OnePass(t, "*"), OTHERS)
  {
    hide OnePass, UnescapeEach, Marked, Replace, Distinct;
    MarkedIsTwoSteps(t);
    EscapesDistinct();
    EmptyPass(Restored(t));
    EmptyPass(OnePass(t, "*"));
    assert "" + OTHERS == OTHERS && "*" + OTHERS == ESCAPABLE;
    EachIsOnePass(Restored(t), "", OTHERS);
    EachIsOnePass(t, "*", OTHERS);
    EachIsOnePass(OnePass(t, "*"), "", OTHERS);
  }

  lemma AmbiguousDiffers(t: string)
    requires !Unambiguous(t)
    ensures OnePass(Restored(t), OTHERS) != OnePass(OnePass(t, "*"), OTHERS)
  {
    hide OnePass, Restored, Unambiguous;
    var common, x, y := PlaceholderLeaks(t);
    PassSplits(common, x, OTHERS);
    PassSplits(common, y, OTHERS);
    PassHead(x, OTHERS);
    PassHead(y, OTHERS);
    DifferAfter(OnePass(common, OTHERS), OnePass(x, OTHERS), OnePass(y, OTHERS));
  }

  /** The chain equals the single pass exactly on the texts without an ambiguity. */
  lemma ChainIsOnePass(t: string)
    ensures Chain(t) == OnePass(t, ESCAPABLE) <==> Unambiguous(t)
  {
    hide Chain, OnePass, Restored, Unambiguous;
    ChainIsTwoPasses(t);
    if Unambiguous(t) {
      PlaceholderRestored(t);
    } else {
      AmbiguousDiffers(t);
    }
  }

  /** In particular on every text without a section sign. */
  lemma NoSignNoAmbiguity(t: string)
    requires '\U{A7}' !in t
    ensures Unambiguous(t) && Chain(t) == OnePass(t, ESCAPABLE)
  {
    forall i | 0 <= i <= |t|
      ensures !Ambiguous(t[i..])
    {
      assert t[i..] != "" ==> t[i..][0] == t[i] && t[i] in t;
    }
    ChainIsOnePass(t);
  }

  // ---------------------------------------------------------------- escaping and back

  predicate Special(c: char) {
    c in {'*', '#', '-', '.', '>', '|', '[', ']', '(', ')'}
  }

  /** What the export did: a backslash before each of the ten special characters. */
  function Escaped(t: string): string {
    if t == "" then "" else (if Special(t[0]) then ['\\', t[0]] else [t[0]]) + Escaped(t[1..])
  }

  /** The pass undoes it on every text, whatever backslashes it held before. */
  lemma {:induction false} PassUndoesEscape(t: string)
    ensures OnePass(Escaped(t), ESCAPABLE) == t
  {
    if t != "" {
      PassUndoesEscape(t[1..]);
      var s, rest := Escaped(t), Escaped(t[1..]);
      if Special(t[0]) {
        assert s[0] == '\\' && s[1] == t[0] && s[2..] == rest;
      } else {
        assert s[0] == t[0] && s[1..] == rest;
        assert rest != "" ==> s[1] == rest[0] && !Special(rest[0]);
      }
      assert t == [t[0]] + t[1..];
    }
  }

  lemma {:induction false} EscapedHasNoSign(t: string)
    requires '\U{A7}' !in t
    ensures '\U{A7}' !in Escaped(t)
  {
    if t != "" {
      EscapedHasNoSign(t[1..]);
    }
  }

  /** The chain gives back the text that was escaped, exactly when the escaped text is unambiguous; so
      on every text without a section sign. */
  lemma ChainUndoesEscape(t: string)
    ensures Chain(Escaped(t)) == t <==> Unambiguous(Escaped(t))
    ensures '\U{A7}' !in t ==> Chain(Escaped(t)) == t
  {
    hide Chain, OnePass, Escaped, Unambiguous;
    PassUndoesEscape(t);
    ChainIsOnePass(Escaped(t));
    if '\U{A7}' !in t {
      EscapedHasNoSign(t);
      NoSignNoAmbiguity(Escaped(t));
    }
  }
}
