/**
 * Text normalisation for anchor texts, page texts and link targets. The final pass of
 * normalize turns every delimiter into a space, surrounds every kept delimiter with spaces
 * and collapses whitespace runs into single spaces; the variant without delimiters turns
 * both kinds into spaces. Link targets get underscores replaced, are trimmed, capitalised
 * and, when they hold a '%', URL-decoded.
 */
module Normalizers {
  import opened Wrappers
  import opened JavaLang
  import MentionDetection

  /** The delimiters in the order the replace loop walks them. */
  const DELIMITER_CHARS: string := [
    ' ', '\t', '\n', '\r', 12 as char, 0x2014 as char, '/', '*', '`', '"', '\'', '(', ')',
    '[', ']', '{', '}', ',', 0x2018 as char, 0x2019 as char, 0x201C as char, 0x201D as char,
    ';', '?', '_', MentionDetection.NBSP]

  const DELIMITER_KEEP_CHARS: string := ".!-:"

  /** The separators the whitespace collapse splits on. */
  const WHITESPACES: set<char> := {' ', '\t', '\n', '\r', 12 as char}

  const SPACE: string := " "

  /** The characters a string lists. */
  function CharSet(s: string): (r: set<char>)
    ensures forall c :: c in r <==> c in s
  {
    set c | c in s
  }

  // ---------------------------------------------------------------------------
  // The passes as functions of the whole string.

  /** Every character of d becomes a space. */
  function SpaceOut(s: string, d: set<char>): string
  {
    seq(|s|, i requires 0 <= i < |s| => if s[i] in d then ' ' else s[i])
  }

  /** Every character of k gets a space on either side. */
  function Pad(s: string, k: set<char>): string
  {
    if |s| == 0 then [] else (if s[0] in k then [' ', s[0], ' '] else [s[0]]) + Pad(s[1..], k)
  }

  /** Joiner.on(" ").join(StringUtils.split(s, " \t\n\r\f")). */
  function Collapse(s: string): string
  {
    Join(Split(s, WHITESPACES), SPACE)
  }

  /** The final pass of normalize. */
  function Normalized(s: string): string
  {
    Collapse(Pad(SpaceOut(s, MentionDetection.DELIMITERS), MentionDetection.DELIMITERS_KEEP))
  }

  /** The final pass of normalizeNoDelimiters. */
  function NormalizedNoDelimiters(s: string): string
  {
    Collapse(SpaceOut(s, MentionDetection.DELIMITERS + MentionDetection.DELIMITERS_KEEP))
  }

  // ---------------------------------------------------------------------------
  // What a normalised string looks like.

  /** Single spaces between words, none at either end, and no other whitespace. */
  predicate Collapsed(r: string)
  {
    NoneIn(r, WHITESPACES - {' '}) &&
    (|r| > 0 ==> r[0] != ' ' && r[|r| - 1] != ' ') &&
    (forall i :: 0 <= i < |r| - 1 ==> !(r[i] == ' ' && r[i + 1] == ' '))
  }

  /** Every character of k stands between separators or at an end of the string. */
  predicate Spaced(s: string, k: set<char>, seps: set<char>)
  {
    forall i :: 0 <= i < |s| && s[i] in k ==>
      (i == 0 || s[i - 1] in seps) && (i == |s| - 1 || s[i + 1] in seps)
  }

  // ---------------------------------------------------------------------------
  // The replace loops.

  /** String.replace of one character by a one-character string, position by position. */
  lemma {:induction false} ReplaceCharOne(s: string, c: char, x: char)
    ensures ReplaceChar(s, c, [x]) == seq(|s|, i requires 0 <= i < |s| => if s[i] == c then x else s[i])
  {
    if |s| > 0 {
      ReplaceCharOne(s[1..], c, x);
    }
  }

  lemma {:induction false} ReplaceCharConcat(a: string, b: string, c: char, with: string)
    ensures ReplaceChar(a + b, c, with) == ReplaceChar(a, c, with) + ReplaceChar(b, c, with)
  {
    if |a| > 0 {
      var head := if a[0] == c then with else [a[0]];
      assert (a + b)[0] == a[0] && (a + b)[1..] == a[1..] + b;
      ReplaceCharConcat(a[1..], b, c, with);
      calc {
        ReplaceChar(a + b, c, with);
        head + ReplaceChar(a[1..] + b, c, with);
        head + (ReplaceChar(a[1..], c, with) + ReplaceChar(b, c, with));
        (head + ReplaceChar(a[1..], c, with)) + ReplaceChar(b, c, with);
      }
    } else {
      assert a + b == b;
    }
  }

  /** A string without the character is left as it is; the character alone becomes the replacement. */
  lemma {:induction false} ReplaceCharAbsent(s: string, c: char, with: string)
    ensures c !in s ==> ReplaceChar(s, c, with) == s
    ensures s == [c] ==> ReplaceChar(s, c, with) == with
  {
    if |s| > 0 {
      ReplaceCharAbsent(s[1..], c, with);
      assert s == [s[0]] + s[1..];
    }
  }

  /** Replacing one more delimiter by a space extends the set of spaced-out characters. */
  lemma SpaceOutStep(s: string, d: set<char>, c: char)
    ensures ReplaceChar(SpaceOut(s, d), c, SPACE) == SpaceOut(s, d + {c})
  {
    ReplaceCharOne(SpaceOut(s, d), c, ' ');
  }

  /** Padding one more kept delimiter extends the set of padded characters. */
  lemma {:induction false} PadStep(s: string, k: set<char>, c: char)
    requires c !in k && c != ' ' && ' ' !in k
    ensures ReplaceChar(Pad(s, k), c, [' ', c, ' ']) == Pad(s, k + {c})
  {
    if |s| > 0 {
      var piece := if s[0] in k then [' ', s[0], ' '] else [s[0]];
      ReplaceCharConcat(piece, Pad(s[1..], k), c, [' ', c, ' ']);
      PadStep(s[1..], k, c);
      ReplaceCharAbsent(piece, c, [' ', c, ' ']);
    }
  }

  /** The replace loop of the first delimiter pass: each listed character in turn becomes a space. */
  method SpaceOutLoop(input: string, delimiters: string) returns (s: string)
    ensures s == SpaceOut(input, CharSet(delimiters))
  {
    s := input;
    assert CharSet(delimiters[..0]) == {};
    for i := 0 to |delimiters|
      invariant s == SpaceOut(input, CharSet(delimiters[..i]))
    {
      SpaceOutStep(input, CharSet(delimiters[..i]), delimiters[i]);
      assert CharSet(delimiters[..i + 1]) == CharSet(delimiters[..i]) + {delimiters[i]} by {
        assert delimiters[..i + 1] == delimiters[..i] + [delimiters[i]];
      }
      s := ReplaceChar(s, delimiters[i], SPACE);
    }
    assert delimiters[..|delimiters|] == delimiters;
  }

  /** The replace loop of the kept delimiters: each listed character in turn is surrounded by spaces. */
  method PadLoop(input: string, keep: string) returns (s: string)
    requires ' ' !in keep
    requires forall i, j :: 0 <= i < j < |keep| ==> keep[i] != keep[j]
    ensures s == Pad(input, CharSet(keep))
  {
    s := input;
    PadNone(input);
    assert CharSet(keep[..0]) == {};
    for i := 0 to |keep|
      invariant s == Pad(input, CharSet(keep[..i]))
    {
      assert keep[i] !in keep[..i];
      PadStep(input, CharSet(keep[..i]), keep[i]);
      assert CharSet(keep[..i + 1]) == CharSet(keep[..i]) + {keep[i]} by {
        assert keep[..i + 1] == keep[..i] + [keep[i]];
      }
      s := ReplaceChar(s, keep[i], [' ', keep[i], ' ']);
    }
    assert keep[..|keep|] == keep;
  }

  lemma {:induction false} PadNone(s: string)
    ensures Pad(s, {}) == s
  {
    if |s| > 0 {
      PadNone(s[1..]);
      assert s == [s[0]] + s[1..];
    }
  }

  /** The listed delimiters are the tokenizer's delimiter set. */
  lemma DelimiterSet()
    ensures CharSet(DELIMITER_CHARS) == MentionDetection.DELIMITERS
  {
  }

  /** The listed kept delimiters are the tokenizer's set, each listed once, without the space. */
  lemma KeepSet()
    ensures CharSet(DELIMITER_KEEP_CHARS) == MentionDetection.DELIMITERS_KEEP
    ensures ' ' !in DELIMITER_KEEP_CHARS
    ensures forall i, j :: 0 <= i < j < |DELIMITER_KEEP_CHARS| ==> DELIMITER_KEEP_CHARS[i] != DELIMITER_KEEP_CHARS[j]
  {
  }

  /** The delimiter and whitespace pass of normalize. */
  method DelimiterPass(input: string) returns (output: string)
    ensures output == Normalized(input)
  {
    DelimiterSet();
    KeepSet();
    var s := SpaceOutLoop(input, DELIMITER_CHARS);
    s := PadLoop(s, DELIMITER_KEEP_CHARS);
    output := Join(Split(s, WHITESPACES), SPACE);
  }

  /** The delimiter and whitespace pass of normalizeNoDelimiters: the kept delimiters become spaces too. */
  method DelimiterPassNoDelimiters(input: string) returns (output: string)
    ensures output == NormalizedNoDelimiters(input)
  {
    DelimiterSet();
    KeepSet();
    var s := SpaceOutLoop(input, DELIMITER_CHARS);
    s := SpaceOutLoop(s, DELIMITER_KEEP_CHARS);
    assert s == SpaceOut(input, MentionDetection.DELIMITERS + MentionDetection.DELIMITERS_KEEP);
    output := Join(Split(s, WHITESPACES), SPACE);
  }

  /**
   * normalize. `unescape` stands for the XML and HTML unescaping and `stripMarkup` for the
   * comment and tag removal by regular expression; lower-casing, the two line-break
   * replacements and the final pass are modelled.
   */
  method Normalize(input: string, unescape: string -> string, stripMarkup: string -> string) returns (output: string)
    ensures output == Normalized(Prepared(input, unescape, stripMarkup))
  {
    var s := Prepared(input, unescape, stripMarkup);
    output := DelimiterPass(s);
  }

  method NormalizeNoDelimiters(input: string, unescape: string -> string, stripMarkup: string -> string) returns (output: string)
    ensures output == NormalizedNoDelimiters(Prepared(input, unescape, stripMarkup))
  {
    var s := Prepared(input, unescape, stripMarkup);
    output := DelimiterPassNoDelimiters(s);
  }

  /** The steps before the final pass: unescape, lower-case, strip markup, replace line breaks by spaces. */
  function Prepared(input: string, unescape: string -> string, stripMarkup: string -> string): string
  {
    var s := stripMarkup(ToLower(unescape(input)));
    ReplaceAll(ReplaceAll(s, "<br>", SPACE), "<br />", SPACE)
  }

  // ---------------------------------------------------------------------------
  // Properties of the final passes.

  /** Every split field lies within the string, so it has no character the string lacks. */
  lemma {:induction false} SplitNoneIn(s: string, seps: set<char>, bad: set<char>)
    requires NoneIn(s, bad)
    ensures forall i :: 0 <= i < |Split(s, seps)| ==> NoneIn(Split(s, seps)[i], bad)
    decreases |s|
  {
    if |s| > 0 {
      if s[0] in seps {
        SplitNoneIn(s[1..], seps, bad);
      } else {
        var n := RunLength(s, seps);
        SplitNoneIn(s[n..], seps, bad);
      }
    }
  }

  /** A join on a space has no character that neither the parts nor the space have. */
  lemma {:induction false} JoinNoneIn(parts: seq<string>, bad: set<char>)
    requires ' ' !in bad
    requires forall i :: 0 <= i < |parts| ==> NoneIn(parts[i], bad)
    ensures NoneIn(Join(parts, SPACE), bad)
  {
    if |parts| > 1 {
      JoinNoneIn(parts[1..], bad);
    }
  }

  /** Joining non-empty words without whitespace on single spaces gives a collapsed string. */
  lemma {:induction false} JoinCollapsed(parts: seq<string>)
    requires forall i :: 0 <= i < |parts| ==> |parts[i]| > 0 && NoneIn(parts[i], WHITESPACES)
    ensures Collapsed(Join(parts, SPACE))
  {
    JoinNoneIn(parts, WHITESPACES - {' '});
    if |parts| > 1 {
      JoinCollapsed(parts[1..]);
      var a, b := parts[0], Join(parts[1..], SPACE);
      var r := a + SPACE + b;
      assert Join(parts, SPACE) == r;
      forall i | 0 <= i < |r| - 1
        ensures !(r[i] == ' ' && r[i + 1] == ' ')
      {
        if i < |a| {
          assert r[i] == a[i];
        } else if i > |a| {
          assert r[i] == b[i - |a| - 1] && r[i + 1] == b[i - |a|];
        } else {
          assert r[i + 1] == b[0];
        }
      }
    }
  }

  /** The whitespace collapse gives a collapsed string, and collapsing again changes nothing. */
  lemma CollapseMeaning(s: string)
    ensures Collapsed(Collapse(s))
    ensures Collapse(Collapse(s)) == Collapse(s)
  {
    var parts := Split(s, WHITESPACES);
    forall i | 0 <= i < |parts|
      ensures |parts[i]| > 0 && NoneIn(parts[i], WHITESPACES)
    {
    }
    JoinCollapsed(parts);
    SplitJoin(parts, ' ', WHITESPACES);
  }

  lemma SpacedConcat(a: string, b: string, k: set<char>, seps: set<char>)
    requires Spaced(a, k, seps) && Spaced(b, k, seps)
    requires |a| > 0 && |b| > 0 ==> (a[|a| - 1] in k ==> b[0] in seps) && (b[0] in k ==> a[|a| - 1] in seps)
    ensures Spaced(a + b, k, seps)
  {
    var s := a + b;
    forall i | 0 <= i < |s| && s[i] in k
      ensures (i == 0 || s[i - 1] in seps) && (i == |s| - 1 || s[i + 1] in seps)
    {
      if i < |a| {
        assert s[i] == a[i];
        if i + 1 < |a| {
          assert s[i + 1] == a[i + 1];
        }
        if i > 0 {
          assert s[i - 1] == a[i - 1];
        }
      } else {
        assert s[i] == b[i - |a|];
        if i > |a| {
          assert s[i - 1] == b[i - |a| - 1];
        }
        if i + 1 < |s| {
          assert s[i + 1] == b[i - |a| + 1];
        }
      }
    }
  }

  /** Padding surrounds every kept character with spaces, and a padded string neither starts nor ends with one. */
  lemma {:induction false} PadSpaced(s: string, k: set<char>, seps: set<char>)
    requires ' ' !in k && ' ' in seps
    ensures Spaced(Pad(s, k), k, seps)
    ensures |Pad(s, k)| > 0 ==> Pad(s, k)[0] !in k && Pad(s, k)[|Pad(s, k)| - 1] !in k
  {
    if |s| > 0 {
      PadSpaced(s[1..], k, seps);
      var piece := if s[0] in k then [' ', s[0], ' '] else [s[0]];
      var rest := Pad(s[1..], k);
      SpacedConcat(piece, rest, k, seps);
      assert Pad(s, k) == piece + rest;
      if |rest| > 0 {
        assert Pad(s, k)[|Pad(s, k)| - 1] == rest[|rest| - 1];
      }
    }
  }

  /** A suffix of a spaced string is spaced. */
  lemma SpacedSuffix(s: string, m: nat, k: set<char>, seps: set<char>)
    requires m <= |s| && Spaced(s, k, seps)
    ensures Spaced(s[m..], k, seps)
  {
    var t := s[m..];
    forall i | 0 <= i < |t| && t[i] in k
      ensures (i == 0 || t[i - 1] in seps) && (i == |t| - 1 || t[i + 1] in seps)
    {
      assert t[i] == s[m + i];
    }
  }

  /** When kept characters stand between separators, a split field holding one is that character alone. */
  lemma {:induction false} SplitSpaced(s: string, k: set<char>, seps: set<char>)
    requires Spaced(s, k, seps) && k !! seps
    ensures forall i :: 0 <= i < |Split(s, seps)| ==> |Split(s, seps)[i]| == 1 || NoneIn(Split(s, seps)[i], k)
    decreases |s|
  {
    if |s| > 0 {
      if s[0] in seps {
        SpacedSuffix(s, 1, k, seps);
        SplitSpaced(s[1..], k, seps);
      } else {
        var n := RunLength(s, seps);
        SpacedSuffix(s, n, k, seps);
        SplitSpaced(s[n..], k, seps);
        if n > 1 {
          forall j | 0 <= j < n
            ensures s[..n][j] !in k
          {
            assert j > 0 ==> s[j - 1] !in seps;
            assert j + 1 < n ==> s[j + 1] !in seps;
          }
        }
      }
    }
  }

  /** Joining on spaces words that are a lone character or free of kept characters leaves every kept character spaced. */
  lemma {:induction false} JoinSpaced(parts: seq<string>, k: set<char>)
    requires ' ' !in k
    requires forall i :: 0 <= i < |parts| ==> |parts[i]| == 1 || NoneIn(parts[i], k)
    ensures Spaced(Join(parts, SPACE), k, {' '})
  {
    if |parts| == 1 {
      assert Spaced(parts[0], k, {' '});
    } else if |parts| > 1 {
      JoinSpaced(parts[1..], k);
      var a, b := parts[0], Join(parts[1..], SPACE);
      assert Spaced(a, k, {' '});
      SpacedConcat(a, SPACE, k, {' '});
      SpacedConcat(a + SPACE, b, k, {' '});
      assert Join(parts, SPACE) == a + SPACE + b;
    }
  }

  /**
   * After normalize's final pass the words are separated by single spaces, no delimiter other
   * than the space is left, and every kept delimiter stands alone between spaces or at an end.
   */
  lemma NormalizedShape(s: string)
    ensures Collapsed(Normalized(s))
    ensures NoneIn(Normalized(s), MentionDetection.DELIMITERS - {' '})
    ensures Spaced(Normalized(s), MentionDetection.DELIMITERS_KEEP, {' '})
  {
    var d, k := MentionDetection.DELIMITERS, MentionDetection.DELIMITERS_KEEP;
    var t := Pad(SpaceOut(s, d), k);
    CollapseMeaning(t);
    PadNoneIn(SpaceOut(s, d), k, d - {' '});
    var parts := Split(t, WHITESPACES);
    SplitNoneIn(t, WHITESPACES, d - {' '});
    JoinNoneIn(parts, d - {' '});
    PadSpaced(SpaceOut(s, d), k, WHITESPACES);
    SplitSpaced(t, k, WHITESPACES);
    JoinSpaced(parts, k);
  }

  /** Padding adds only spaces and kept characters. */
  lemma {:induction false} PadNoneIn(s: string, k: set<char>, bad: set<char>)
    requires NoneIn(s, bad) && ' ' !in bad && k !! bad
    ensures NoneIn(Pad(s, k), bad)
  {
    if |s| > 0 {
      PadNoneIn(s[1..], k, bad);
    }
  }

  /** After normalizeNoDelimiters' final pass the words are separated by single spaces and no delimiter other than the space is left. */
  lemma NormalizedNoDelimitersShape(s: string)
    ensures Collapsed(NormalizedNoDelimiters(s))
    ensures NoneIn(NormalizedNoDelimiters(s), MentionDetection.DELIMITERS + MentionDetection.DELIMITERS_KEEP - {' '})
  {
    var bad := MentionDetection.DELIMITERS + MentionDetection.DELIMITERS_KEEP - {' '};
    var t := SpaceOut(s, MentionDetection.DELIMITERS + MentionDetection.DELIMITERS_KEEP);
    CollapseMeaning(t);
    SplitNoneIn(t, WHITESPACES, bad);
    JoinNoneIn(Split(t, WHITESPACES), bad);
  }

  // ---------------------------------------------------------------------------
  // What the final passes keep.

  /** The characters of s outside d, in order. */
  function Without(s: string, d: set<char>): string
  {
    if |s| == 0 then [] else (if s[0] in d then [] else [s[0]]) + Without(s[1..], d)
  }

  /** The parts one after another. */
  function Concat(parts: seq<string>): string
  {
    if |parts| == 0 then [] else parts[0] + Concat(parts[1..])
  }

  lemma {:induction false} WithoutConcat(a: string, b: string, d: set<char>)
    ensures Without(a + b, d) == Without(a, d) + Without(b, d)
  {
    if |a| > 0 {
      assert (a + b)[1..] == a[1..] + b;
      WithoutConcat(a[1..], b, d);
    } else {
      assert a + b == b;
    }
  }

  lemma {:induction false} WithoutNone(s: string, d: set<char>)
    requires NoneIn(s, d)
    ensures Without(s, d) == s
  {
    if |s| > 0 {
      WithoutNone(s[1..], d);
    }
  }

  /** A space join of words without characters of d keeps, outside d, the words in order. */
  lemma {:induction false} JoinWithout(parts: seq<string>, d: set<char>)
    requires ' ' in d
    requires forall i :: 0 <= i < |parts| ==> NoneIn(parts[i], d)
    ensures Without(Join(parts, SPACE), d) == Concat(parts)
  {
    if |parts| == 1 {
      WithoutNone(parts[0], d);
    } else if |parts| > 1 {
      JoinWithout(parts[1..], d);
      WithoutConcat(parts[0] + SPACE, Join(parts[1..], SPACE), d);
      WithoutConcat(parts[0], SPACE, d);
      WithoutNone(parts[0], d);
    }
  }

  /** The split fields, put back together, are the characters outside the separators, in order. */
  lemma {:induction false} SplitWithout(s: string, seps: set<char>)
    ensures Concat(Split(s, seps)) == Without(s, seps)
    decreases |s|
  {
    if |s| > 0 {
      if s[0] in seps {
        SplitWithout(s[1..], seps);
      } else {
        var n := RunLength(s, seps);
        SplitWithout(s[n..], seps);
        assert s == s[..n] + s[n..];
        WithoutConcat(s[..n], s[n..], seps);
        WithoutNone(s[..n], seps);
      }
    }
  }

  /** The whitespace collapse keeps every other character, in order. */
  lemma CollapseKeeps(s: string)
    ensures Without(Collapse(s), WHITESPACES) == Without(s, WHITESPACES)
  {
    var parts := Split(s, WHITESPACES);
    forall i | 0 <= i < |parts|
      ensures NoneIn(parts[i], WHITESPACES)
    {
    }
    JoinWithout(parts, WHITESPACES);
    SplitWithout(s, WHITESPACES);
  }

  /** Padding adds only spaces around characters it keeps. */
  lemma {:induction false} PadKeeps(s: string, k: set<char>, w: set<char>)
    requires ' ' in w && k !! w
    ensures Without(Pad(s, k), w) == Without(s, w)
  {
    if |s| > 0 {
      PadKeeps(s[1..], k, w);
      var head := if s[0] in k then [' ', s[0], ' '] else [s[0]];
      WithoutConcat(head, Pad(s[1..], k), w);
      if s[0] in k {
        assert head == [' '] + [s[0]] + [' '];
        WithoutConcat([' '] + [s[0]], [' '], w);
        WithoutConcat([' '], [s[0]], w);
      }
    }
  }

  /** Spacing out d keeps, outside d and the whitespace set w, every character in order. */
  lemma {:induction false} SpaceOutKeeps(s: string, d: set<char>, w: set<char>)
    requires ' ' in w
    ensures Without(SpaceOut(s, d), w) == Without(s, d + w)
  {
    if |s| > 0 {
      var t := SpaceOut(s, d);
      assert t == [t[0]] + SpaceOut(s[1..], d);
      SpaceOutKeeps(s[1..], d, w);
    }
  }

  /** normalize's final pass keeps every character that is not a delimiter, in order. */
  lemma NormalizedKeeps(s: string)
    ensures Without(Normalized(s), WHITESPACES) == Without(s, MentionDetection.DELIMITERS + WHITESPACES)
  {
    var d, k := MentionDetection.DELIMITERS, MentionDetection.DELIMITERS_KEEP;
    CollapseKeeps(Pad(SpaceOut(s, d), k));
    PadKeeps(SpaceOut(s, d), k, WHITESPACES);
    SpaceOutKeeps(s, d, WHITESPACES);
  }

  /** normalizeNoDelimiters' final pass keeps every character that is not a delimiter, in order. */
  lemma NormalizedNoDelimitersKeeps(s: string)
    ensures Without(NormalizedNoDelimiters(s), WHITESPACES) ==
      Without(s, MentionDetection.DELIMITERS + MentionDetection.DELIMITERS_KEEP + WHITESPACES)
  {
    var d := MentionDetection.DELIMITERS + MentionDetection.DELIMITERS_KEEP;
    CollapseKeeps(SpaceOut(s, d));
    SpaceOutKeeps(s, d, WHITESPACES);
  }

  // ---------------------------------------------------------------------------
  // Links.

  /** removeHashFromLink: the part before the first '#'. */
  function RemoveHash(s: string): string
  {
    var i := IndexOfChar(s, '#');
    if i != -1 then s[..i] else s
  }

  /**
   * The result is the longest prefix without '#': it has none, and the string goes on with a
   * '#' or ends there; a link without '#' is unchanged, and removing twice is removing once.
   */
  lemma RemoveHashMeaning(s: string)
    ensures var r := RemoveHash(s);
      '#' !in r && |r| <= |s| && r == s[..|r|] && (|r| < |s| ==> s[|r|] == '#')
    ensures '#' !in s ==> RemoveHash(s) == s
    ensures RemoveHash(RemoveHash(s)) == RemoveHash(s)
  {
  }

  /** capitalizeFirstLetter: the first character upper-cased, the rest unchanged. */
  function Capitalize(s: string): string
  {
    if |s| == 0 then s else [UpperChar(s[0])] + s[1..]
  }

  /**
   * Capitalising keeps the length and every character after the first, leaves no lower-case
   * ASCII letter in front, and capitalising twice is capitalising once.
   */
  lemma CapitalizeMeaning(s: string)
    ensures |Capitalize(s)| == |s|
    ensures |s| > 0 ==> Capitalize(s)[1..] == s[1..] && !('a' <= Capitalize(s)[0] <= 'z')
    ensures |s| > 0 && !('a' <= s[0] <= 'z') ==> Capitalize(s) == s
    ensures Capitalize(Capitalize(s)) == Capitalize(s)
  {
    if |s| > 0 {
      assert Capitalize(s) == [UpperChar(s[0])] + s[1..];
      assert Capitalize(s)[1..] == s[1..];
    }
  }

  const URL_PREFIX: string := "http://a.a/"

  /**
   * processTargetLink. `unescapeAndStrip` stands for the unescaping, the comment removal and
   * the removal of ref tags; `urlDecode` stands for URLDecoder.decode, None when it throws
   * IllegalArgumentException. Underscores become spaces, the link is trimmed and capitalised,
   * and only a link with a '%' is decoded, behind a fixed prefix that is cut off again.
   */
  function ProcessTargetLink(input: string, unescapeAndStrip: string -> string, urlDecode: string -> Option<string>): Result<string>
  {
    var link := Capitalize(Trim(ReplaceChar(unescapeAndStrip(input), '_', SPACE)));
    if '%' !in link then Ok(link)
    else match urlDecode(URL_PREFIX + link)
      case None => Ok(Trim(link))
      case Some(decoded) => if |decoded| < |URL_PREFIX| then Err(StringIndexOutOfBounds) else Ok(Trim(decoded[|URL_PREFIX|..]))
  }

  /** The cleaned link has no underscore, is trimmed, and does not start with a lower-case ASCII letter. */
  lemma CleanLinkShape(text: string)
    ensures var link := Capitalize(Trim(ReplaceChar(text, '_', SPACE)));
      '_' !in link && Trimmed(link) && (|link| > 0 ==> !('a' <= link[0] <= 'z'))
  {
    var replaced := ReplaceChar(text, '_', SPACE);
    TrimWithin(replaced, '_');
    CapitalizeKeeps(Trim(replaced), '_');
    CapitalizeTrimmed(Trim(replaced));
  }

  /** Capitalising adds no character other than an upper-case ASCII letter. */
  lemma CapitalizeKeeps(s: string, c: char)
    requires c !in s && !('A' <= c <= 'Z')
    ensures c !in Capitalize(s)
  {
    if |s| > 0 {
      assert Capitalize(s) == [UpperChar(s[0])] + s[1..];
      assert s[0] in s;
    }
  }

  /** Capitalising a trimmed string leaves it trimmed, and its first character is no lower-case ASCII letter. */
  lemma CapitalizeTrimmed(s: string)
    requires Trimmed(s)
    ensures Trimmed(Capitalize(s)) && (|s| > 0 ==> !('a' <= Capitalize(s)[0] <= 'z'))
  {
    if |s| > 0 {
      var r := Capitalize(s);
      assert r[0] == UpperChar(s[0]);
      if |s| > 1 {
        assert r[|r| - 1] == s[|s| - 1];
      }
    }
  }

  /** Trimming only drops characters. */
  lemma TrimWithin(s: string, c: char)
    requires c !in s
    ensures c !in Trim(s)
  {
    var t := TrimStart(s);
    assert t == s[|s| - |t|..];
    assert Trim(s) == t[..|Trim(s)|];
  }

  /**
   * A link without '%', and a link whose decoding throws, come back as the cleaned link:
   * without underscores, trimmed, and not starting with a lower-case ASCII letter; the second
   * trim on the fallback path changes nothing.
   */
  lemma ProcessTargetLinkMeaning(input: string, unescapeAndStrip: string -> string, urlDecode: string -> Option<string>)
    ensures var link := Capitalize(Trim(ReplaceChar(unescapeAndStrip(input), '_', SPACE)));
      ('%' !in link || urlDecode(URL_PREFIX + link).None?) ==>
      ProcessTargetLink(input, unescapeAndStrip, urlDecode) == Ok(link) &&
      '_' !in link && Trimmed(link) && (|link| > 0 ==> !('a' <= link[0] <= 'z'))
  {
    CleanLinkShape(unescapeAndStrip(input));
    TrimTrimmed(Capitalize(Trim(ReplaceChar(unescapeAndStrip(input), '_', SPACE))));
  }
}
