/** The JavaScript string operations the handlers and the page rely on:
    the `\s` class, `trim()`, `toLowerCase()`, `replace(/\s+/g, '-')` and `replace(/:/g, '')`. */
module Text {

  /** White space as ECMA-262 defines it for `\s` and for `String.prototype.trim`:
      the WhiteSpace and LineTerminator code points. */
  predicate IsSpace(c: char)
  {
    ('\t' <= c <= '\r') || c == ' ' || c == '\U{A0}' || c == '\U{1680}' ||
    ('\U{2000}' <= c <= '\U{200A}') || c == '\U{2028}' || c == '\U{2029}' ||
    c == '\U{202F}' || c == '\U{205F}' || c == '\U{3000}' || c == '\U{FEFF}'
  }

  predicate NoSpaces(s: string)
  {
    forall i | 0 <= i < |s| :: !IsSpace(s[i])
  }

  predicate AllSpaces(s: string)
  {
    forall i | 0 <= i < |s| :: IsSpace(s[i])
  }

  // ---------------------------------------------------------------- lower case

  /** `toLowerCase` restricted to ASCII: 'A'..'Z' map to 'a'..'z', every other character is kept. */
  function LowerChar(c: char): (r: char)
    ensures 'A' <= c <= 'Z' ==> 'a' <= r <= 'z' && r as int - c as int == 32
    ensures !('A' <= c <= 'Z') ==> r == c
    ensures IsSpace(r) <==> IsSpace(c)
  {
    if 'A' <= c <= 'Z' then (c as int + 32) as char else c
  }

  function Lower(s: string): (r: string)
    ensures |r| == |s|
    ensures forall i | 0 <= i < |s| :: r[i] == LowerChar(s[i])
  {
    seq(|s|, i requires 0 <= i < |s| => LowerChar(s[i]))
  }

  /** No ASCII upper-case letter. */
  predicate NoUpper(s: string)
  {
    forall i | 0 <= i < |s| :: !('A' <= s[i] <= 'Z')
  }

  /** The lower-cased string holds no upper-case letter, and only upper-case letters changed. */
  lemma LowerNoUpper(s: string)
    ensures NoUpper(Lower(s))
    ensures forall i | 0 <= i < |s| :: Lower(s)[i] == s[i] || 'A' <= s[i] <= 'Z'
  {
  }

  /** Lower case changes no character into or out of white space, and leaves ':' alone. */
  lemma LowerKeepsSpacesAndColons(s: string)
    ensures NoSpaces(Lower(s)) <==> NoSpaces(s)
    ensures forall i | 0 <= i < |s| :: (Lower(s)[i] == ':') <==> (s[i] == ':')
  {
  }

  lemma LowerConcat(a: string, b: string)
    ensures Lower(a + b) == Lower(a) + Lower(b)
  {
  }

  lemma LowerIdempotent(s: string)
    ensures Lower(Lower(s)) == Lower(s)
  {
  }

  // ---------------------------------------------------------------- trim

  /** Drops the longest all-white-space prefix. This is `trimStart()`. */
  function SkipSpaces(s: string): (r: string)
    ensures |r| <= |s| && r == s[|s| - |r|..]
    ensures s != [] && IsSpace(s[0]) ==> |r| < |s|
    ensures r == [] || !IsSpace(r[0])
    decreases |s|
  {
    if s != [] && IsSpace(s[0]) then SkipSpaces(s[1..]) else s
  }

  /** What `SkipSpaces` drops is white space. */
  lemma {:induction false} SkipSpacesDropsSpaces(s: string)
    ensures forall i | 0 <= i < |s| - |SkipSpaces(s)| :: IsSpace(s[i])
    decreases |s|
  {
    if s != [] && IsSpace(s[0]) {
      SkipSpacesDropsSpaces(s[1..]);
      assert forall i | 1 <= i < |s| :: s[1..][i - 1] == s[i];
    }
  }

  /** Drops the longest all-white-space suffix. This is `trimEnd()`. */
  function TrimEnd(s: string): (r: string)
    ensures |r| <= |s| && r == s[..|r|]
    ensures r == [] || !IsSpace(r[|r| - 1])
    decreases |s|
  {
    if s != [] && IsSpace(s[|s| - 1]) then TrimEnd(s[..|s| - 1]) else s
  }

  /** What `TrimEnd` drops is white space. */
  lemma {:induction false} TrimEndDropsSpaces(s: string)
    ensures forall i | |TrimEnd(s)| <= i < |s| :: IsSpace(s[i])
    decreases |s|
  {
    if s != [] && IsSpace(s[|s| - 1]) {
      TrimEndDropsSpaces(s[..|s| - 1]);
      assert forall i | 0 <= i < |s| - 1 :: s[..|s| - 1][i] == s[i];
    }
  }

  /** `String.prototype.trim`. */
  function Trim(s: string): (r: string)
  {
    TrimEnd(SkipSpaces(s))
  }

  /** The trimmed string is the part of `s` that follows its white-space prefix. */
  lemma TrimIsInfix(s: string)
    ensures |s| - |SkipSpaces(s)| + |Trim(s)| <= |s|
    ensures Trim(s) == s[|s| - |SkipSpaces(s)|..|s| - |SkipSpaces(s)| + |Trim(s)|]
  {
    var t := SkipSpaces(s);
    var r := TrimEnd(t);
    var k := |s| - |t|;
    calc {
      r;
      t[..|r|];
      s[k..][..|r|];
      s[k..k + |r|];
    }
  }

  /** What trimming drops on either side is white space. */
  lemma TrimDropsOnlySpaces(s: string)
    ensures var k := |s| - |SkipSpaces(s)|;
            k + |Trim(s)| <= |s| &&
            (forall i | 0 <= i < k :: IsSpace(s[i])) &&
            (forall i | k + |Trim(s)| <= i < |s| :: IsSpace(s[i]))
  {
    var t := SkipSpaces(s);
    var k := |s| - |t|;
    var r := TrimEnd(t);
    SkipSpacesDropsSpaces(s);
    TrimEndDropsSpaces(t);
    assert t == s[k..];
    forall i | k + |r| <= i < |s| ensures IsSpace(s[i]) {
      assert s[i] == t[i - k];
    }
  }

  /** The trimmed string neither starts nor ends with white space. */
  lemma TrimEdges(s: string)
    ensures Trim(s) == [] || (!IsSpace(Trim(s)[0]) && !IsSpace(Trim(s)[|Trim(s)| - 1]))
  {
    var t := SkipSpaces(s);
    var r := TrimEnd(t);
    if r != [] {
      assert r == t[..|r|];
      assert r[0] == t[0];
    }
  }

  /** `word.trim()` is empty exactly when `word` is nothing but white space. */
  lemma TrimEmptyIff(s: string)
    ensures Trim(s) == [] <==> AllSpaces(s)
  {
    var t := SkipSpaces(s);
    SkipSpacesDropsSpaces(s);
    TrimEndDropsSpaces(t);
    assert t == s[|s| - |t|..];
  }

  lemma TrimIdempotent(s: string)
    ensures Trim(Trim(s)) == Trim(s)
  {
    TrimEdges(s);
    var r := Trim(s);
    if r != [] {
      assert SkipSpaces(r) == r;
      assert TrimEnd(r) == r;
    }
  }

  // ---------------------------------------------------------------- replace(/\s+/g, '-')

  /** Every maximal run of white space becomes a single '-'; all other characters are kept in order. */
  function DashSpaceRuns(s: string): (r: string)
    decreases |s|
  {
    if s == [] then []
    else if IsSpace(s[0]) then "-" + DashSpaceRuns(SkipSpaces(s))
    else [s[0]] + DashSpaceRuns(s[1..])
  }

  /** The characters a reader sees once white space and dashes are ignored. */
  function Letters(s: string): (r: string)
    ensures |r| <= |s|
    decreases |s|
  {
    if s == [] then []
    else if IsSpace(s[0]) || s[0] == '-' then Letters(s[1..])
    else [s[0]] + Letters(s[1..])
  }

  lemma {:induction false} DashSpaceRunsHasNoSpaces(s: string)
    ensures NoSpaces(DashSpaceRuns(s))
    decreases |s|
  {
    if s != [] {
      var h, t := if IsSpace(s[0]) then '-' else s[0], if IsSpace(s[0]) then SkipSpaces(s) else s[1..];
      var d := DashSpaceRuns(t);
      DashSpaceRunsHasNoSpaces(t);
      assert DashSpaceRuns(s) == [h] + d;
      forall i | 1 <= i <= |d| ensures !IsSpace(([h] + d)[i]) {
        assert ([h] + d)[i] == d[i - 1];
      }
    }
  }

  /** The replacement introduces no upper-case letter. */
  lemma {:induction false} DashSpaceRunsNoUpper(s: string)
    requires NoUpper(s)
    ensures NoUpper(DashSpaceRuns(s))
    decreases |s|
  {
    if s == [] {
    } else if IsSpace(s[0]) {
      var t := SkipSpaces(s);
      NoUpperSuffix(s, |s| - |t|);
      DashSpaceRunsNoUpper(t);
      NoUpperCons('-', DashSpaceRuns(t));
    } else {
      NoUpperSuffix(s, 1);
      DashSpaceRunsNoUpper(s[1..]);
      NoUpperCons(s[0], DashSpaceRuns(s[1..]));
    }
  }

  lemma NoUpperSuffix(s: string, k: nat)
    requires NoUpper(s) && k <= |s|
    ensures NoUpper(s[k..])
  {
    assert forall i | 0 <= i < |s| - k :: s[k..][i] == s[k + i];
  }

  lemma NoUpperCons(c: char, d: string)
    requires !('A' <= c <= 'Z') && NoUpper(d)
    ensures NoUpper([c] + d)
  {
    assert forall i | 1 <= i <= |d| :: ([c] + d)[i] == d[i - 1];
  }

  lemma {:induction false} DashSpaceRunsWithoutSpaces(s: string)
    requires NoSpaces(s)
    ensures DashSpaceRuns(s) == s
    decreases |s|
  {
    if s != [] {
      assert !IsSpace(s[0]);
      DashSpaceRunsWithoutSpaces(s[1..]);
      assert [s[0]] + s[1..] == s;
    }
  }

  /** Replacing twice changes nothing more than replacing once. */
  lemma DashSpaceRunsIdempotent(s: string)
    ensures DashSpaceRuns(DashSpaceRuns(s)) == DashSpaceRuns(s)
  {
    DashSpaceRunsHasNoSpaces(s);
    DashSpaceRunsWithoutSpaces(DashSpaceRuns(s));
  }

  lemma {:induction false} LettersSkipSpaces(s: string)
    ensures Letters(SkipSpaces(s)) == Letters(s)
    decreases |s|
  {
    if s != [] && IsSpace(s[0]) {
      LettersSkipSpaces(s[1..]);
    }
  }

  /** No character other than white space and '-' is added, dropped or reordered. */
  lemma {:induction false} DashSpaceRunsKeepsLetters(s: string)
    ensures Letters(DashSpaceRuns(s)) == Letters(s)
    decreases |s|
  {
    if s == [] {
    } else if IsSpace(s[0]) {
      var t := SkipSpaces(s);
      DashSpaceRunsKeepsLetters(t);
      LettersSkipSpaces(s);
      var d := DashSpaceRuns(t);
      assert ("-" + d)[1..] == d;
    } else {
      DashSpaceRunsKeepsLetters(s[1..]);
      var d := DashSpaceRuns(s[1..]);
      assert ([s[0]] + d)[1..] == d;
    }
  }

  /** A run of white space at the start is replaced too: nothing is trimmed. */
  lemma DashSpaceRunsFirst(s: string)
    ensures |DashSpaceRuns(s)| <= |s|
    ensures s == [] <==> DashSpaceRuns(s) == []
    ensures s != [] && IsSpace(s[0]) ==> DashSpaceRuns(s)[0] == '-'
    ensures s != [] && !IsSpace(s[0]) ==> DashSpaceRuns(s)[0] == s[0]
  {
    DashSpaceRunsShorter(s);
  }

  lemma {:induction false} DashSpaceRunsShorter(s: string)
    ensures |DashSpaceRuns(s)| <= |s|
    decreases |s|
  {
    if s == [] {
    } else if IsSpace(s[0]) {
      DashSpaceRunsShorter(SkipSpaces(s));
    } else {
      DashSpaceRunsShorter(s[1..]);
    }
  }

  /** A run of white space at the end is replaced too: nothing is trimmed. */
  lemma {:induction false} DashSpaceRunsLast(s: string)
    requires s != []
    ensures DashSpaceRuns(s) != []
    ensures IsSpace(s[|s| - 1]) ==> DashSpaceRuns(s)[|DashSpaceRuns(s)| - 1] == '-'
    ensures !IsSpace(s[|s| - 1]) ==> DashSpaceRuns(s)[|DashSpaceRuns(s)| - 1] == s[|s| - 1]
    decreases |s|
  {
    var d := DashSpaceRuns(s);
    if IsSpace(s[0]) {
      var t := SkipSpaces(s);
      assert d == "-" + DashSpaceRuns(t);
      SkipSpacesDropsSpaces(s);
      if t != [] {
        DashSpaceRunsLast(t);
        assert t[|t| - 1] == s[|s| - 1];
      }
    } else {
      var t := s[1..];
      assert d == [s[0]] + DashSpaceRuns(t);
      if t != [] {
        DashSpaceRunsLast(t);
        assert t[|t| - 1] == s[|s| - 1];
      }
    }
  }

  /** A stretch without white space is copied as it is. */
  lemma {:induction false} DashSpaceRunsWord(a: string, b: string)
    requires NoSpaces(a)
    ensures DashSpaceRuns(a + b) == a + DashSpaceRuns(b)
    decreases |a|
  {
    if a == [] {
      assert a + b == b;
    } else {
      assert (a + b)[0] == a[0] && (a + b)[1..] == a[1..] + b;
      DashSpaceRunsWord(a[1..], b);
      assert a == [a[0]] + a[1..];
    }
  }

  /** A maximal run of white space, however long, becomes one '-'. */
  lemma DashSpaceRunsRun(run: string, b: string)
    requires run != [] && AllSpaces(run)
    requires b == [] || !IsSpace(b[0])
    ensures DashSpaceRuns(run + b) == "-" + DashSpaceRuns(b)
  {
    SkipSpacesRun(run, b);
  }

  lemma {:induction false} SkipSpacesRun(run: string, b: string)
    requires AllSpaces(run)
    requires b == [] || !IsSpace(b[0])
    ensures SkipSpaces(run + b) == b
    decreases |run|
  {
    if run == [] {
      assert run + b == b;
    } else {
      assert (run + b)[0] == run[0] && (run + b)[1..] == run[1..] + b;
      SkipSpacesRun(run[1..], b);
    }
  }

  /** One word, one run of white space, one word. */
  lemma DashOfWordRunWord(a: string, run: string, b: string)
    requires NoSpaces(a) && NoSpaces(b) && b != []
    requires run != [] && AllSpaces(run)
    ensures DashSpaceRuns(a + (run + b)) == a + "-" + b
  {
    DashSpaceRunsWord(a, run + b);
    DashSpaceRunsRun(run, b);
    DashSpaceRunsWithoutSpaces(b);
  }

  /** The only character the replacement introduces is '-'. */
  lemma {:induction false} DashSpaceRunsAddsOnlyDashes(s: string, c: char)
    requires c != '-' && c !in s
    ensures c !in DashSpaceRuns(s)
    decreases |s|
  {
    if s == [] {
    } else if IsSpace(s[0]) {
      var t := SkipSpaces(s);
      assert c !in t;
      DashSpaceRunsAddsOnlyDashes(t, c);
      assert DashSpaceRuns(s) == "-" + DashSpaceRuns(t);
    } else {
      assert c !in s[1..];
      DashSpaceRunsAddsOnlyDashes(s[1..], c);
      assert DashSpaceRuns(s) == [s[0]] + DashSpaceRuns(s[1..]);
    }
  }

  // ---------------------------------------------------------------- replace(/c/g, '')

  /** Every occurrence of `c` removed. */
  function RemoveAll(s: string, c: char): (r: string)
    ensures |r| <= |s|
    decreases |s|
  {
    if s == [] then []
    else if s[0] == c then RemoveAll(s[1..], c)
    else [s[0]] + RemoveAll(s[1..], c)
  }

  lemma {:induction false} RemoveAllRemoves(s: string, c: char)
    ensures c !in RemoveAll(s, c)
    ensures c !in s ==> RemoveAll(s, c) == s
    decreases |s|
  {
    if s != [] {
      RemoveAllRemoves(s[1..], c);
      if c !in s {
        assert c !in s[1..];
        assert [s[0]] + s[1..] == s;
      }
    }
  }

  /** Removal works piece by piece. */
  lemma {:induction false} RemoveAllConcat(a: string, b: string, c: char)
    ensures RemoveAll(a + b, c) == RemoveAll(a, c) + RemoveAll(b, c)
    decreases |a|
  {
    if a != [] {
      assert (a + b)[1..] == a[1..] + b;
      RemoveAllConcat(a[1..], b, c);
    } else {
      assert a + b == b;
    }
  }
}
