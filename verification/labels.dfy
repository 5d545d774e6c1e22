/** Prometheus text-format labels: the printer of the performance script and the
    index-loop parser of the network report. Strings hold Unicode scalar values. */
module Labels {
  // ----- sequential replacement -----

  /** Every `c` replaced by `r`. */
  function ReplaceChar(s: string, c: char, r: string): string {
    if s == [] then [] else (if s[0] == c then r else [s[0]]) + ReplaceChar(s[1..], c, r)
  }

  /** Every `a` followed by `b` replaced by `r`, left to right without overlap. */
  function ReplacePair(s: string, a: char, b: char, r: string): string {
    if |s| < 2 then s
    else if s[0] == a && s[1] == b then r + ReplacePair(s[2..], a, b, r)
    else [s[0]] + ReplacePair(s[1..], a, b, r)
  }

  function Escape(v: string): string {
    ReplaceChar(ReplaceChar(ReplaceChar(ReplaceChar(v, '\\', "\\\\"), '\n', "\\n"), '\r', "\\r"), '"', "\\\"")
  }

  function Unescape(raw: string): string {
    ReplacePair(ReplacePair(ReplacePair(raw, '\\', '\\', "\\"), '\\', '"', "\""), '\\', 'n', "\n")
  }

  // ----- what unescaping an escaped value gives -----

  /** One character of an escaped value after `stage` of the three unescaping replacements. */
  function Token(stage: nat, c: char): string {
    if c == '\\' then (if stage == 0 then "\\\\" else "\\")
    else if c == '"' then (if stage <= 1 then "\\\"" else "\"")
    else if c == '\n' then "\\n"
    else if c == '\r' then "\\r"
    else [c]
  }

  function Expand(stage: nat, v: string): string {
    if v == [] then [] else Token(stage, v[0]) + Expand(stage, v[1..])
  }

  lemma {:induction false} ReplaceCharOfConcat(a: string, b: string, c: char, r: string)
    ensures ReplaceChar(a + b, c, r) == ReplaceChar(a, c, r) + ReplaceChar(b, c, r)
    decreases |a|
  {
    if a == [] {
      assert a + b == b;
    } else {
      assert (a + b)[1..] == a[1..] + b;
      ReplaceCharOfConcat(a[1..], b, c, r);
    }
  }

  lemma {:induction false} ReplaceCharAbsent(s: string, c: char, r: string)
    requires c !in s
    ensures ReplaceChar(s, c, r) == s
    decreases |s|
  {
    if s != [] { ReplaceCharAbsent(s[1..], c, r); }
  }

  /** The replacement `c -> r` on the expansion of one more character. */
  lemma {:induction false} ReplaceStep(head: string, tail: string, c: char, r: string, out: string)
    requires ReplaceChar(head, c, r) == out
    ensures ReplaceChar(head + tail, c, r) == out + ReplaceChar(tail, c, r)
  {
    ReplaceCharOfConcat(head, tail, c, r);
  }

  function One(c: char, from: char, r: string): string {
    if c == from then r else [c]
  }

  lemma {:induction false} OneChar(c: char, from: char, r: string)
    ensures ReplaceChar([c], from, r) == One(c, from, r)
  {
  }

  lemma {:induction false} EscapeIsPerCharacter(v: string)
    ensures Escape(v) == Expand(0, v)
    decreases |v|
  {
    if v != [] {
      var c, rest := v[0], v[1..];
      EscapeIsPerCharacter(rest);
      var a0 := ReplaceChar(rest, '\\', "\\\\");
      var a1 := ReplaceChar(a0, '\n', "\\n");
      var a2 := ReplaceChar(a1, '\r', "\\r");
      var h0 := One(c, '\\', "\\\\");
      var h1 := if c == '\\' then h0 else One(c, '\n', "\\n");
      var h2 := if c == '\\' || c == '\n' then h1 else One(c, '\r', "\\r");
      assert ReplaceChar(v, '\\', "\\\\") == h0 + a0;
      OneChar(c, '\n', "\\n");
      OneChar(c, '\r', "\\r");
      OneChar(c, '"', "\\\"");
      if c == '\\' { ReplaceCharAbsent(h0, '\n', "\\n"); }
      ReplaceStep(h0, a0, '\n', "\\n", h1);
      if c == '\\' || c == '\n' { ReplaceCharAbsent(h1, '\r', "\\r"); }
      ReplaceStep(h1, a1, '\r', "\\r", h2);
      if c == '\\' || c == '\n' || c == '\r' { ReplaceCharAbsent(h2, '"', "\\\""); }
      ReplaceStep(h2, a2, '"', "\\\"", Token(0, c));
    }
  }

  lemma {:induction false} PairAtHead(a: char, b: char, r: string, s: string)
    ensures ReplacePair([a, b] + s, a, b, r) == r + ReplacePair(s, a, b, r)
  {
  }

  lemma {:induction false} PlainAtHead(c: char, a: char, b: char, r: string, s: string)
    requires c != a || (s != [] ==> s[0] != b)
    ensures ReplacePair([c] + s, a, b, r) == [c] + ReplacePair(s, a, b, r)
  {
  }

  /** An escape other than the one replaced passes through. */
  lemma {:induction false} OtherEscapeAtHead(x: char, b: char, r: string, s: string)
    requires x != b && x != '\\'
    ensures ReplacePair(['\\', x] + s, '\\', b, r) == ['\\', x] + ReplacePair(s, '\\', b, r)
  {
  }

  lemma {:induction false} FirstReplacement(v: string)
    ensures ReplacePair(Expand(0, v), '\\', '\\', "\\") == Expand(1, v)
    decreases |v|
  {
    if v != [] {
      var c, s := v[0], Expand(0, v[1..]);
      FirstReplacement(v[1..]);
      if c == '\\' { PairAtHead('\\', '\\', "\\", s); }
      else if c == '"' { OtherEscapeAtHead('"', '\\', "\\", s); }
      else if c == '\n' { OtherEscapeAtHead('n', '\\', "\\", s); }
      else if c == '\r' { OtherEscapeAtHead('r', '\\', "\\", s); }
      else { PlainAtHead(c, '\\', '\\', "\\", s); }
    }
  }

  lemma {:induction false} SecondReplacement(v: string)
    ensures ReplacePair(Expand(1, v), '\\', '"', "\"") == Expand(2, v)
    decreases |v|
  {
    if v != [] {
      var c, s := v[0], Expand(1, v[1..]);
      SecondReplacement(v[1..]);
      if c == '"' { PairAtHead('\\', '"', "\"", s); }
      else if c == '\n' { OtherEscapeAtHead('n', '"', "\"", s); }
      else if c == '\r' { OtherEscapeAtHead('r', '"', "\"", s); }
      else { PlainAtHead(c, '\\', '"', "\"", s); }
    }
  }

  /** What printing and unescaping does to a value: a backslash followed by the letter `n`
      collapses into a line feed, and a carriage return becomes backslash `r`. */
  function Collapse(v: string): string {
    if v == [] then []
    else if v[0] == '\\' && |v| > 1 && v[1] == 'n' then "\n" + Collapse(v[2..])
    else if v[0] == '\r' then "\\r" + Collapse(v[1..])
    else [v[0]] + Collapse(v[1..])
  }

  lemma {:induction false} CollapsedPair(v: string)
    requires |v| > 1 && v[0] == '\\' && v[1] == 'n'
    requires ReplacePair(Expand(2, v[2..]), '\\', 'n', "\n") == Collapse(v[2..])
    ensures ReplacePair(Expand(2, v), '\\', 'n', "\n") == Collapse(v)
  {
    assert v[1..][1..] == v[2..];
    assert Expand(2, v[1..]) == "n" + Expand(2, v[2..]);
    assert Expand(2, v) == ['\\', 'n'] + Expand(2, v[2..]);
    PairAtHead('\\', 'n', "\n", Expand(2, v[2..]));
  }

  lemma {:induction false} HeadIsNotN(v: string)
    requires v != [] ==> v[0] != 'n'
    ensures Expand(2, v) != [] ==> Expand(2, v)[0] != 'n'
  {
  }

  /** Unless it starts a collapsing pair, the head of `v` and the rest are replaced apart. */
  lemma {:induction false} KeptHead(c: char, s: string)
    requires c == '\\' && s != [] ==> s[0] != 'n'
    ensures ReplacePair(Token(2, c) + s, '\\', 'n', "\n")
            == (if c == '\r' then "\\r" else [c]) + ReplacePair(s, '\\', 'n', "\n")
  {
    if c == '\n' { PairAtHead('\\', 'n', "\n", s); }
    else if c == '\r' { OtherEscapeAtHead('r', 'n', "\n", s); }
    else { PlainAtHead(c, '\\', 'n', "\n", s); }
  }

  lemma {:induction false} ThirdReplacement(v: string)
    ensures ReplacePair(Expand(2, v), '\\', 'n', "\n") == Collapse(v)
    decreases |v|
  {
    if v == [] {
    } else if |v| > 1 && v[0] == '\\' && v[1] == 'n' {
      ThirdReplacement(v[2..]);
      CollapsedPair(v);
    } else {
      ThirdReplacement(v[1..]);
      if v[0] == '\\' { HeadIsNotN(v[1..]); }
      KeptHead(v[0], Expand(2, v[1..]));
    }
  }

  lemma {:induction false} UnescapeOfEscape(v: string)
    ensures Unescape(Escape(v)) == Collapse(v)
  {
    EscapeIsPerCharacter(v);
    FirstReplacement(v);
    SecondReplacement(v);
    ThirdReplacement(v);
  }

  /** No carriage return, and no backslash immediately followed by the letter `n`. */
  predicate Clean(v: string) {
    '\r' !in v && forall i :: 0 <= i < |v| - 1 ==> !(v[i] == '\\' && v[i + 1] == 'n')
  }

  lemma CleanStep(v: string)
    requires v != []
    ensures Clean(v) <==> v[0] != '\r' && !(|v| > 1 && v[0] == '\\' && v[1] == 'n') && Clean(v[1..])
  {
    var t := v[1..];
    if Clean(v) {
      forall i | 0 <= i < |t| - 1
        ensures !(t[i] == '\\' && t[i + 1] == 'n')
      {
        assert !(v[i + 1] == '\\' && v[i + 1 + 1] == 'n');
      }
    }
    if v[0] != '\r' && !(|v| > 1 && v[0] == '\\' && v[1] == 'n') && Clean(t) {
      assert v == [v[0]] + t;
      forall i | 0 <= i < |v| - 1
        ensures !(v[i] == '\\' && v[i + 1] == 'n')
      {
        if i > 0 { assert !(t[i - 1] == '\\' && t[i - 1 + 1] == 'n'); }
      }
    }
  }

  lemma {:induction false} CollapseFixesExactlyClean(v: string)
    ensures Collapse(v) == v <==> Clean(v)
    decreases |v|
  {
    if v != [] {
      CleanStep(v);
      CollapseFixesExactlyClean(v[1..]);
      var c := Collapse(v);
      if v[0] == '\\' && |v| > 1 && v[1] == 'n' {
        assert c[0] == '\n';
      } else if v[0] == '\r' {
        assert c[0] == '\\';
      } else {
        assert c[1..] == Collapse(v[1..]);
        assert v == [v[0]] + v[1..];
      }
    }
  }

  /** A value survives printing and parsing exactly when it is clean. */
  lemma EscapeRoundTripsIff(v: string)
    ensures Unescape(Escape(v)) == v <==> Clean(v)
  {
    UnescapeOfEscape(v);
    CollapseFixesExactlyClean(v);
  }

  /** A Windows path whose next directory begins with `n` does not survive. */
  lemma EscapedBackslashThenNIsNotInverted()
    ensures Unescape(Escape("\\n")) == "\n" != "\\n"
  {
    UnescapeOfEscape("\\n");
  }

  /** An escaped value never breaks the line it is printed on. */
  lemma {:induction false} EscapedHasNoLineBreak(v: string)
    ensures '\n' !in Escape(v) && '\r' !in Escape(v)
    decreases |v|
  {
    EscapeIsPerCharacter(v);
    if v != [] {
      EscapedHasNoLineBreak(v[1..]);
      EscapeIsPerCharacter(v[1..]);
    }
  }
}
