/** The text cleaner: splits the raw text the OCR engine returns for one
    screen region into lines and turns them into the region's token list. */
module TextCleaner {

  /** The characters Python's `str.isspace()` accepts, which are exactly the
      characters `str.strip()` removes when called without arguments. */
  predicate IsSpace(c: char) {
    || c == ' '
    || '\t' <= c <= '\r'
    || '\U{1c}' <= c <= '\U{1f}'
    || c == '\U{85}' || c == '\U{a0}' || c == '\U{1680}'
    || '\U{2000}' <= c <= '\U{200a}'
    || c == '\U{2028}' || c == '\U{2029}' || c == '\U{202f}'
    || c == '\U{205f}' || c == '\U{3000}'
  }

  /** How many whitespace characters `s.lstrip()` removes: the length of the
      leading whitespace run. */
  function LeadingSpace(s: string): (a: nat)
    ensures a <= |s|
    ensures forall i :: 0 <= i < a ==> IsSpace(s[i])
    ensures a < |s| ==> !IsSpace(s[a])
    decreases |s|
  {
    if |s| > 0 && IsSpace(s[0]) then
      var a' := LeadingSpace(s[1..]);
      assert forall i :: 1 <= i < a' + 1 ==> s[i] == s[1..][i - 1];
      1 + a'
    else 0
  }

  /** Where `s.rstrip()` cuts the line: the start of the trailing whitespace
      run. */
  function TrailingStart(s: string): (b: nat)
    ensures b <= |s|
    ensures forall i :: b <= i < |s| ==> IsSpace(s[i])
    ensures b > 0 ==> !IsSpace(s[b - 1])
    decreases |s|
  {
    if |s| > 0 && IsSpace(s[|s| - 1]) then TrailingStart(s[..|s| - 1]) else |s|
  }

  /** `s.strip()`: whitespace removed from both ends. The result is the
      contiguous middle of `s` that starts after the leading whitespace, only
      whitespace lies outside it, and when it is not empty it starts and ends
      with a character that is not whitespace. */
  function Strip(s: string): (r: string)
    ensures var a := LeadingSpace(s);
      && a + |r| <= |s| && r == s[a..a + |r|]
      && (forall i :: 0 <= i < a ==> IsSpace(s[i]))
      && (forall i :: a + |r| <= i < |s| ==> IsSpace(s[i]))
    ensures |r| > 0 ==> !IsSpace(r[0]) && !IsSpace(r[|r| - 1])
  {
    var a, b := LeadingSpace(s), TrailingStart(s);
    if b <= a then [] else s[a..b]
  }

  /** A line the cleaner drops: empty or whitespace only. */
  predicate IsBlank(s: string) {
    forall i :: 0 <= i < |s| ==> IsSpace(s[i])
  }

  /** Blank is exactly the source's `s.strip() == ""`. */
  lemma BlankIffStripEmpty(s: string)
    ensures IsBlank(s) <==> Strip(s) == ""
  {
    var r := Strip(s);
    var a := LeadingSpace(s);
    if |r| > 0 {
      assert r[0] == s[a];
    } else {
      forall i | 0 <= i < |s| ensures IsSpace(s[i]) {
        assert i < a || a + |r| <= i;
      }
    }
  }

  /** `text.split('\n')`: the pieces between newline characters, so a text
      with `k` newlines gives `k + 1` lines, the empty text included. */
  function SplitLines(text: string): (lines: seq<string>)
    ensures |lines| >= 1
    ensures forall l :: l in lines ==> '\n' !in l
    decreases |text|
  {
    if |text| == 0 then [""]
    else
      var rest := SplitLines(text[1..]);
      if text[0] == '\n' then [""] + rest
      else [[text[0]] + rest[0]] + rest[1..]
  }

  /** `'\n'.join(lines)`, the reference the split is measured against. */
  function JoinLines(lines: seq<string>): string
    requires |lines| >= 1
    decreases |lines|
  {
    if |lines| == 1 then lines[0] else lines[0] + ['\n'] + JoinLines(lines[1..])
  }

  /** Splitting loses nothing: joining the lines with newlines gives the
      text back. */
  lemma {:induction false} JoinSplitLines(text: string)
    ensures JoinLines(SplitLines(text)) == text
    decreases |text|
  {
    if |text| > 0 {
      var rest := SplitLines(text[1..]);
      JoinSplitLines(text[1..]);
      var lines := SplitLines(text);
      if text[0] == '\n' {
        assert lines[1..] == rest;
        assert text == [text[0]] + text[1..];
      } else if |rest| == 1 {
        assert text == [text[0]] + text[1..];
      } else {
        assert lines[1..] == rest[1..];
        assert JoinLines(rest) == rest[0] + ['\n'] + JoinLines(rest[1..]);
        assert text == [text[0]] + text[1..];
      }
    }
  }

  /** A character other than a newline in front of a text joins the text's
      first line. */
  lemma SplitLinesCons(c: char, text: string)
    requires c != '\n'
    ensures SplitLines([c] + text) == [[c] + SplitLines(text)[0]] + SplitLines(text)[1..]
  {
    assert ([c] + text)[0] == c && ([c] + text)[1..] == text;
  }

  /** A newline-free piece in front of a text joins the text's first line. */
  lemma {:induction false} SplitLinesPrefix(w: string, text: string)
    requires '\n' !in w
    ensures SplitLines(w + text) == [w + SplitLines(text)[0]] + SplitLines(text)[1..]
    decreases |w|
  {
    var lines := SplitLines(text);
    if |w| == 0 {
      assert w + text == text && w + lines[0] == lines[0];
      assert [lines[0]] + lines[1..] == lines;
    } else {
      assert w[0] != '\n' by {
        assert w[0] in w;
      }
      assert '\n' !in w[1..] by {
        forall k | 0 <= k < |w[1..]| ensures w[1..][k] != '\n' {
          assert w[1..][k] == w[k + 1];
        }
      }
      SplitLinesPrefix(w[1..], text);
      assert w + text == [w[0]] + (w[1..] + text);
      SplitLinesCons(w[0], w[1..] + text);
      var rest := SplitLines(w[1..] + text);
      assert rest[0] == w[1..] + lines[0] && rest[1..] == lines[1..];
      assert [w[0]] + (w[1..] + lines[0]) == w + lines[0];
    }
  }

  /** Joining loses nothing either: newline-free lines joined with newlines
      split back into the same lines. */
  lemma {:induction false} SplitJoinLines(lines: seq<string>)
    requires |lines| >= 1
    requires forall l :: l in lines ==> '\n' !in l
    ensures SplitLines(JoinLines(lines)) == lines
    decreases |lines|
  {
    if |lines| == 1 {
      SplitLinesPrefix(lines[0], "");
      assert lines[0] + "" == lines[0];
    } else {
      var rest := lines[1..];
      assert forall l :: l in rest ==> l in lines;
      SplitJoinLines(rest);
      var tail := ['\n'] + JoinLines(rest);
      assert tail[1..] == JoinLines(rest);
      assert SplitLines(tail) == [""] + rest;
      assert lines[0] + ['\n'] + JoinLines(rest) == lines[0] + tail;
      SplitLinesPrefix(lines[0], tail);
      assert lines[0] + "" == lines[0];
    }
  }

  predicate EndsWithComma(s: string) {
    |s| > 0 && s[|s| - 1] == ','
  }

  /** `s.rstrip(',')`: the longest prefix of `s` that does not end in a comma
      and is followed only by commas. */
  function RStripCommas(s: string): (r: string)
    ensures r <= s
    ensures !EndsWithComma(r)
    ensures forall i :: |r| <= i < |s| ==> s[i] == ','
    decreases |s|
  {
    if EndsWithComma(s) then RStripCommas(s[..|s| - 1]) else s
  }

  /** A token the cleaner keeps: a line whose comma-stripped form is not blank. */
  predicate Kept(line: string) {
    !IsBlank(RStripCommas(line))
  }

  /** `clean_number_strings`: strip trailing commas from every line, then keep
      the results that are not blank. Kept tokens are not trimmed. */
  function Clean(lines: seq<string>): (tokens: seq<string>)
    ensures |tokens| <= |lines|
    ensures forall t :: t in tokens ==> !IsBlank(t) && !EndsWithComma(t)
    decreases |lines|
  {
    if |lines| == 0 then []
    else
      var t := RStripCommas(lines[|lines| - 1]);
      Clean(lines[..|lines| - 1]) + (if IsBlank(t) then [] else [t])
  }

  /** The positions of the input lines the cleaner keeps, in increasing order. */
  function KeptPositions(lines: seq<string>): (ps: seq<nat>)
    ensures forall k :: 0 <= k < |ps| ==> ps[k] < |lines|
    decreases |lines|
  {
    if |lines| == 0 then []
    else
      KeptPositions(lines[..|lines| - 1])
      + (if Kept(lines[|lines| - 1]) then [|lines| - 1] else [])
  }

  lemma {:induction false} KeptPositionsExact(lines: seq<string>)
    ensures forall k, l :: 0 <= k < l < |KeptPositions(lines)| ==>
              KeptPositions(lines)[k] < KeptPositions(lines)[l]
    ensures forall j :: 0 <= j < |lines| ==> (j in KeptPositions(lines) <==> Kept(lines[j]))
    decreases |lines|
  {
    if |lines| > 0 {
      var init := lines[..|lines| - 1];
      KeptPositionsExact(init);
      assert forall j :: 0 <= j < |init| ==> init[j] == lines[j];
    }
  }

  /** The output is exactly the order-preserving filter of the comma-stripped
      inputs: token `k` is the stripped line at the `k`-th kept position (and
      `KeptPositionsExact` says which positions those are). */
  lemma {:induction false} CleanIsOrderedFilter(lines: seq<string>)
    ensures |Clean(lines)| == |KeptPositions(lines)|
    ensures forall k :: 0 <= k < |Clean(lines)| ==>
              Clean(lines)[k] == RStripCommas(lines[KeptPositions(lines)[k]])
    decreases |lines|
  {
    if |lines| > 0 {
      var init := lines[..|lines| - 1];
      CleanIsOrderedFilter(init);
      var c, ps := Clean(init), KeptPositions(init);
      assert Clean(lines) == c + (if Kept(lines[|lines| - 1]) then [RStripCommas(lines[|lines| - 1])] else []);
      assert KeptPositions(lines) == ps + (if Kept(lines[|lines| - 1]) then [|lines| - 1] else []);
      forall k | 0 <= k < |c|
        ensures Clean(lines)[k] == RStripCommas(lines[KeptPositions(lines)[k]])
      {
        assert Clean(lines)[k] == c[k];
        assert KeptPositions(lines)[k] == ps[k];
        assert init[ps[k]] == lines[ps[k]];
      }
    }
  }

  /** Every token is some input line with its trailing commas removed. */
  lemma TokensComeFromLines(lines: seq<string>)
    ensures forall t :: t in Clean(lines) ==>
              exists j :: 0 <= j < |lines| && t == RStripCommas(lines[j])
  {
    CleanIsOrderedFilter(lines);
    KeptPositionsExact(lines);
    forall t | t in Clean(lines)
      ensures exists j :: 0 <= j < |lines| && t == RStripCommas(lines[j])
    {
      var k :| 0 <= k < |Clean(lines)| && Clean(lines)[k] == t;
      var j := KeptPositions(lines)[k];
      assert t == RStripCommas(lines[j]);
    }
  }

  /** The result is empty exactly when every line is blank once its trailing
      commas are gone. */
  lemma CleanEmptyIffAllBlank(lines: seq<string>)
    ensures Clean(lines) == [] <==> forall j :: 0 <= j < |lines| ==> !Kept(lines[j])
  {
    CleanIsOrderedFilter(lines);
    KeptPositionsExact(lines);
    if Clean(lines) == [] {
      assert KeptPositions(lines) == [];
    } else {
      var j := KeptPositions(lines)[0];
      assert j in KeptPositions(lines);
    }
  }

  /** Cleaning one more line appends that line's own cleaning. */
  lemma CleanSnoc(lines: seq<string>, line: string)
    ensures Clean(lines + [line]) == Clean(lines) + Clean([line])
  {
    assert (lines + [line])[..|lines|] == lines;
    assert [line][..0] == [];
  }

  /** Cleaning distributes over concatenation of the line sequences. */
  lemma {:induction false} CleanAppend(a: seq<string>, b: seq<string>)
    ensures Clean(a + b) == Clean(a) + Clean(b)
    decreases |b|
  {
    if |b| == 0 {
      assert a + b == a;
    } else {
      var b', e := b[..|b| - 1], b[|b| - 1];
      assert a + b == (a + b') + [e];
      assert b == b' + [e];
      CleanAppend(a, b');
      CleanSnoc(a + b', e);
      CleanSnoc(b', e);
    }
  }

  /** Lines that are already clean tokens come through unchanged. */
  lemma {:induction false} CleanKeepsCleanTokens(tokens: seq<string>)
    requires forall t :: t in tokens ==> !IsBlank(t) && !EndsWithComma(t)
    ensures Clean(tokens) == tokens
    decreases |tokens|
  {
    if |tokens| > 0 {
      var init, last := tokens[..|tokens| - 1], tokens[|tokens| - 1];
      assert forall t :: t in init ==> t in tokens;
      CleanKeepsCleanTokens(init);
      assert last in tokens;
      assert RStripCommas(last) == last;
      assert Clean(tokens) == Clean(init) + [last];
    }
  }

  /** Cleaning is idempotent. */
  lemma CleanIdempotent(lines: seq<string>)
    ensures Clean(Clean(lines)) == Clean(lines)
  {
    CleanKeepsCleanTokens(Clean(lines));
  }

  lemma CleanOneLine(line: string, token: string)
    requires RStripCommas(line) == token
    ensures Clean([line]) == (if IsBlank(token) then [] else [token])
  {
    assert [line][..0] == [];
  }

  /** `n` commas. */
  function Commas(n: nat): (s: string)
    ensures |s| == n && forall i :: 0 <= i < n ==> s[i] == ','
  {
    seq(n, _ => ',')
  }

  /** A non-blank token followed by any number of commas comes out as the
      token itself, leading and trailing spaces included: the cleaner does not
      trim. */
  lemma {:induction false} CleanDoesNotTrim(token: string, n: nat)
    requires !IsBlank(token) && !EndsWithComma(token)
    ensures Clean([token + Commas(n)]) == [token]
  {
    var line := token + Commas(n);
    var r := RStripCommas(line);
    assert token <= line;
    assert r == token;
    CleanOneLine(line, token);
  }

  lemma NoTrimExample()
    ensures Clean([" 12 ,,"]) == [" 12 "]
  {
    assert !IsSpace(" 12 "[1]);
    CleanDoesNotTrim(" 12 ", 2);
    assert " 12 " + Commas(2) == " 12 ,,";
  }
}
