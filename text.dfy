/**
 * String primitives the monitor relies on: substring search (Python's `in`
 * and the literal parts of its regular expressions), lower-casing, the
 * `\s+` -> " " whitespace collapse, the `<[^>]+>` -> " " tag stripping and
 * decimal formatting of integers for f-strings.
 */
module Text {
  import opened Wrappers

  /** `sub` occurs in `s` at index `i`. */
  predicate OccursAt(s: string, sub: string, i: nat)
  {
    i + |sub| <= |s| && s[i..i + |sub|] == sub
  }

  /** Leftmost occurrence of `sub` in `s` at or after `from` (Python's `str.find`). */
  function FindFrom(s: string, sub: string, from: nat): (r: Option<nat>)
    decreases |s| - from
    ensures r.Some? ==> from <= r.value && OccursAt(s, sub, r.value)
    ensures forall j: nat :: from <= j && (r.None? || j < r.value) ==> !OccursAt(s, sub, j)
  {
    if from + |sub| > |s| then None
    else if s[from..from + |sub|] == sub then Some(from)
    else FindFrom(s, sub, from + 1)
  }

  /** An occurrence at or after `from` means the search succeeds, no later than it. */
  lemma FindFromFinds(s: string, sub: string, from: nat, i: nat)
    requires OccursAt(s, sub, i) && from <= i
    ensures FindFrom(s, sub, from).Some? && FindFrom(s, sub, from).value <= i
  {
  }

  /** Python's `sub in s`. */
  predicate Contains(s: string, sub: string)
  {
    FindFrom(s, sub, 0).Some?
  }

  lemma ContainsIff(s: string, sub: string)
    ensures Contains(s, sub) <==> exists i: nat :: OccursAt(s, sub, i)
  {
    if Contains(s, sub) {
      assert OccursAt(s, sub, FindFrom(s, sub, 0).value);
    }
  }

  /** A longer needle found in `s` means every prefix of it is found there too. */
  lemma {:induction false} ContainsPrefix(s: string, sub: string, k: nat)
    requires k <= |sub| && Contains(s, sub)
    ensures Contains(s, sub[..k])
  {
    var i := FindFrom(s, sub, 0).value;
    assert s[i..i + k] == s[i..i + |sub|][..k];
    assert OccursAt(s, sub[..k], i);
    ContainsIff(s, sub[..k]);
  }

  // ── lower-casing ──────────────────────────────────────────────────────────

  /**
   * `str.lower` on one character: ASCII capitals and the capitals of the
   * Romanian alphabet (Ă Â Î Ș Ş Ț Ţ); every other character is kept.
   */
  function LowerChar(c: char): (r: char)
    ensures 'A' <= c <= 'Z' ==> r as int == c as int + 32
    ensures !('A' <= c <= 'Z') && c != 'Ă' && c != 'Â' && c != 'Î' && c != 'Ș' && c != 'Ş' && c != 'Ț' && c != 'Ţ' ==> r == c
  {
    if 'A' <= c <= 'Z' then (c as int + 32) as char
    else if c == 'Ă' then 'ă'
    else if c == 'Â' then 'â'
    else if c == 'Î' then 'î'
    else if c == 'Ș' then 'ș'
    else if c == 'Ş' then 'ş'
    else if c == 'Ț' then 'ț'
    else if c == 'Ţ' then 'ţ'
    else c
  }

  function Lower(s: string): (r: string)
    ensures |r| == |s|
  {
    if s == [] then [] else [LowerChar(s[0])] + Lower(s[1..])
  }

  // ── whitespace ────────────────────────────────────────────────────────────

  /** The characters Python's `\s` matches in a `str` pattern (those for which `str.isspace` holds). */
  predicate IsSpace(c: char)
  {
    || c == ' '
    || '\t' <= c <= '\r'
    || '\U{1C}' <= c <= '\U{1F}'
    || c == '\U{85}' || c == '\U{A0}' || c == '\U{1680}'
    || '\U{2000}' <= c <= '\U{200A}'
    || c == '\U{2028}' || c == '\U{2029}' || c == '\U{202F}' || c == '\U{205F}' || c == '\U{3000}'
  }

  /** `s.replace("\u00a0", " ")`: no-break spaces become plain spaces. */
  function ReplaceNbsp(s: string): (r: string)
    ensures |r| == |s|
    ensures forall i :: 0 <= i < |s| ==> r[i] != '\U{A0}' && IsSpace(r[i]) == IsSpace(s[i])
  {
    seq(|s|, i requires 0 <= i < |s| => if s[i] == '\U{A0}' then ' ' else s[i])
  }

  /** What is left of `s` once its leading whitespace is dropped. */
  function DropSpaces(s: string): (r: string)
    ensures |r| <= |s| && r == s[|s| - |r|..]
    ensures r == [] || !IsSpace(r[0])
    ensures forall i :: 0 <= i < |s| - |r| ==> IsSpace(s[i])
  {
    if s != [] && IsSpace(s[0]) then DropSpaces(s[1..]) else s
  }

  /** `re.sub(r"\s+", " ", s)`: every maximal run of whitespace becomes one space. */
  function CollapseWhitespace(s: string): (r: string)
    decreases |s|
    ensures Collapsed(r)
    ensures |r| <= |s|
    ensures r == [] <==> s == []
    ensures s != [] ==> (IsSpace(s[0]) <==> r[0] == ' ')
  {
    if s == [] then []
    else if IsSpace(s[0]) then
      var rest := DropSpaces(s[1..]);
      var t := CollapseWhitespace(rest);
      ConsCollapsed(' ', t);
      [' '] + t
    else
      var t := CollapseWhitespace(s[1..]);
      ConsCollapsed(s[0], t);
      [s[0]] + t
  }

  /** Putting a visible character, or a space before a visible one, in front keeps a string collapsed. */
  lemma ConsCollapsed(c: char, t: string)
    requires Collapsed(t)
    requires c == ' ' || !IsSpace(c)
    requires c == ' ' ==> t == [] || !IsSpace(t[0])
    ensures Collapsed([c] + t)
  {
    var r := [c] + t;
    forall i | 1 <= i < |r| ensures r[i] == t[i - 1] {}
  }

  /** The only whitespace left is a plain space, and no two of them are adjacent. */
  predicate Collapsed(s: string)
  {
    && (forall i :: 0 <= i < |s| && IsSpace(s[i]) ==> s[i] == ' ')
    && (forall i :: 0 <= i < |s| - 1 ==> !(s[i] == ' ' && s[i + 1] == ' '))
  }

  /** The non-whitespace characters of `s`, in order. */
  function Visible(s: string): (r: string)
    ensures |r| <= |s|
  {
    if s == [] then [] else (if IsSpace(s[0]) then [] else [s[0]]) + Visible(s[1..])
  }

  lemma {:induction false} VisibleOfSpaces(s: string, k: nat)
    requires k <= |s|
    requires forall i :: 0 <= i < k ==> IsSpace(s[i])
    ensures Visible(s) == Visible(s[k..])
  {
    if k > 0 {
      VisibleOfSpaces(s[1..], k - 1);
      assert s[1..][k - 1..] == s[k..];
    }
  }

  /** Collapsing whitespace keeps every visible character, in order, and adds none. */
  lemma {:induction false} CollapseKeepsVisible(s: string)
    decreases |s|
    ensures Visible(CollapseWhitespace(s)) == Visible(s)
  {
    if s != [] {
      if IsSpace(s[0]) {
        var rest := DropSpaces(s[1..]);
        CollapseKeepsVisible(rest);
        VisibleOfSpaces(s[1..], |s[1..]| - |rest|);
        assert Visible([' '] + CollapseWhitespace(rest)) == Visible(CollapseWhitespace(rest)) by {
          assert ([' '] + CollapseWhitespace(rest))[1..] == CollapseWhitespace(rest);
        }
      } else {
        CollapseKeepsVisible(s[1..]);
        assert ([s[0]] + CollapseWhitespace(s[1..]))[1..] == CollapseWhitespace(s[1..]);
      }
    }
  }

  /** A string that is already collapsed is left alone, so collapsing is idempotent. */
  lemma {:induction false} CollapseFixesCollapsed(s: string)
    decreases |s|
    requires Collapsed(s)
    ensures CollapseWhitespace(s) == s
  {
    if s != [] {
      assert Collapsed(s[1..]) by {
        forall i | 0 <= i < |s[1..]| - 1
          ensures !(s[1..][i] == ' ' && s[1..][i + 1] == ' ')
        {
          assert s[1..][i] == s[i + 1] && s[1..][i + 1] == s[i + 2];
        }
      }
      CollapseFixesCollapsed(s[1..]);
      if IsSpace(s[0]) {
        assert |s| > 1 ==> !IsSpace(s[1]);
        assert DropSpaces(s[1..]) == s[1..];
      }
    }
  }

  lemma CollapseIdempotent(s: string)
    ensures CollapseWhitespace(CollapseWhitespace(s)) == CollapseWhitespace(s)
  {
    CollapseFixesCollapsed(CollapseWhitespace(s));
  }

  // ── words ─────────────────────────────────────────────────────────────────

  /** The longest prefix of `s` without whitespace. */
  function LeadingWord(s: string): (w: string)
    ensures |w| <= |s| && w == s[..|w|]
    ensures |w| == |s| || IsSpace(s[|w|])
    ensures s != [] && !IsSpace(s[0]) ==> w != []
  {
    if s == [] || IsSpace(s[0]) then [] else [s[0]] + LeadingWord(s[1..])
  }

  /** The maximal runs of non-whitespace characters of `s`, in order. */
  function Words(s: string): seq<string>
    decreases |s|
  {
    var t := DropSpaces(s);
    if t == [] then []
    else
      var w := LeadingWord(t);
      [w] + Words(t[|w|..])
  }

  /** Whitespace in front of `s` does not change its words. */
  lemma WordsAfterSpace(c: char, s: string)
    requires IsSpace(c)
    ensures Words([c] + s) == Words(s)
  {
    assert ([c] + s)[1..] == s;
  }

  /** A text starting with whitespace has the words of what follows the whole run. */
  lemma WordsOfSpaceRun(s: string)
    requires s != [] && IsSpace(s[0])
    ensures Words(s) == Words(DropSpaces(s[1..]))
  {
    var rest := DropSpaces(s[1..]);
    assert DropSpaces(s) == rest;
    assert DropSpaces(rest) == rest;
  }

  /** Whether `s` starts with a character that is not whitespace. */
  predicate StartsVisible(s: string)
  {
    s != [] && !IsSpace(s[0])
  }

  /** The words after a visible `c` is put in front: it joins the first word when one starts right away. */
  function JoinFront(c: char, ws: seq<string>, join: bool): seq<string>
  {
    if join && ws != [] then [[c] + ws[0]] + ws[1..] else [[c]] + ws
  }

  lemma WordsAfterVisible(c: char, s: string)
    requires !IsSpace(c)
    ensures Words([c] + s) == JoinFront(c, Words(s), StartsVisible(s))
  {
    var cs := [c] + s;
    assert cs[1..] == s;
    assert DropSpaces(cs) == cs;
    assert LeadingWord(cs) == [c] + LeadingWord(s);
    if StartsVisible(s) {
      assert DropSpaces(s) == s;
      assert cs[|LeadingWord(s)| + 1..] == s[|LeadingWord(s)|..];
    }
  }

  lemma CollapseKeepsStartsVisible(s: string)
    ensures StartsVisible(CollapseWhitespace(s)) == StartsVisible(s)
  {
  }

  /** Texts with the same words keep the same words when characters of the same kind are put in front. */
  lemma ConsKeepsWords(c: char, d: char, x: string, y: string)
    requires Words(x) == Words(y) && StartsVisible(x) == StartsVisible(y)
    requires IsSpace(c) == IsSpace(d) && (!IsSpace(c) ==> c == d)
    ensures Words([c] + x) == Words([d] + y)
  {
    if IsSpace(c) {
      WordsAfterSpace(c, x);
      WordsAfterSpace(d, y);
    } else {
      WordsAfterVisible(c, x);
      WordsAfterVisible(d, y);
    }
  }

  /** Collapsing whitespace keeps the words of the text, so no word boundary is lost or added. */
  lemma {:induction false} CollapseKeepsWords(s: string)
    decreases |s|
    ensures Words(CollapseWhitespace(s)) == Words(s)
  {
    if s != [] {
      if IsSpace(s[0]) {
        CollapseKeepsWords(DropSpaces(s[1..]));
        CollapseSpaceRunStep(s);
      } else {
        CollapseKeepsWords(s[1..]);
        CollapseVisibleStep(s);
      }
    }
  }

  lemma CollapseSpaceRunStep(s: string)
    requires s != [] && IsSpace(s[0])
    requires Words(CollapseWhitespace(DropSpaces(s[1..]))) == Words(DropSpaces(s[1..]))
    ensures Words(CollapseWhitespace(s)) == Words(s)
  {
    var t := CollapseWhitespace(DropSpaces(s[1..]));
    assert CollapseWhitespace(s) == [' '] + t;
    WordsAfterSpace(' ', t);
    WordsOfSpaceRun(s);
  }

  lemma CollapseVisibleStep(s: string)
    requires s != [] && !IsSpace(s[0])
    requires Words(CollapseWhitespace(s[1..])) == Words(s[1..])
    ensures Words(CollapseWhitespace(s)) == Words(s)
  {
    var r := CollapseWhitespace(s);
    assert r[0] == s[0] && r[1..] == CollapseWhitespace(s[1..]);
    CollapseKeepsStartsVisible(s[1..]);
    WordsOfVisibleStart(r);
    WordsOfVisibleStart(s);
  }

  /** The words of a text that starts with a visible character, from the words of the rest. */
  lemma WordsOfVisibleStart(s: string)
    requires StartsVisible(s)
    ensures Words(s) == JoinFront(s[0], Words(s[1..]), StartsVisible(s[1..]))
  {
    assert s == [s[0]] + s[1..];
    WordsAfterVisible(s[0], s[1..]);
  }

  /** The collapsed text ends in a space exactly when the text ends in whitespace. */
  lemma {:induction false} CollapseKeepsTrailingSpace(s: string)
    decreases |s|
    requires s != []
    ensures CollapseWhitespace(s)[|CollapseWhitespace(s)| - 1] == ' ' <==> IsSpace(s[|s| - 1])
  {
    var r := CollapseWhitespace(s);
    if IsSpace(s[0]) {
      var rest := DropSpaces(s[1..]);
      if rest == [] {
        assert r == [' '];
        if |s| > 1 {
          assert s[|s| - 1] == s[1..][|s[1..]| - 1];
        }
      } else {
        CollapseKeepsTrailingSpace(rest);
        assert r[|r| - 1] == CollapseWhitespace(rest)[|CollapseWhitespace(rest)| - 1];
        assert rest[|rest| - 1] == s[|s| - 1];
      }
    } else if |s| == 1 {
      assert r == [s[0]];
    } else {
      CollapseKeepsTrailingSpace(s[1..]);
      assert r[|r| - 1] == CollapseWhitespace(s[1..])[|CollapseWhitespace(s[1..])| - 1];
    }
  }

  /** `ReplaceNbsp` works character by character. */
  lemma ReplaceNbspCons(s: string)
    requires s != []
    ensures ReplaceNbsp(s) == [ReplaceNbsp(s)[0]] + ReplaceNbsp(s[1..])
    ensures IsSpace(ReplaceNbsp(s)[0]) == IsSpace(s[0]) && (!IsSpace(s[0]) ==> ReplaceNbsp(s)[0] == s[0])
  {
    var r := ReplaceNbsp(s);
    assert r[1..] == ReplaceNbsp(s[1..]);
  }

  /** No-break spaces are whitespace already, so replacing them keeps the words. */
  lemma {:induction false} ReplaceNbspKeepsWords(s: string)
    decreases |s|
    ensures Words(ReplaceNbsp(s)) == Words(s)
  {
    if s != [] {
      var x := s[1..];
      ReplaceNbspKeepsWords(x);
      ReplaceNbspCons(s);
      if x != [] { ReplaceNbspCons(x); }
      ConsKeepsWords(ReplaceNbsp(s)[0], s[0], ReplaceNbsp(x), x);
      assert s == [s[0]] + x;
    }
  }

  // ── tag stripping ─────────────────────────────────────────────────────────

  /**
   * For `s` starting with '<': the index of the '>' that closes a match of
   * `<[^>]+>` at the start of `s`, i.e. the first '>' after the '<', when at
   * least one other character lies between them.
   */
  function TagEnd(s: string): (r: Option<nat>)
    ensures r.Some? ==> 2 <= r.value < |s| && s[r.value] == '>'
    ensures r.Some? ==> forall j :: 1 <= j < r.value ==> s[j] != '>'
    ensures r.None? ==> (|s| > 1 && s[1] == '>') || forall j :: 1 <= j < |s| ==> s[j] != '>'
  {
    match FindFrom(s, ">", 1)
    case None =>
      assert forall j :: 1 <= j < |s| ==> s[j] != '>' by {
        forall j | 1 <= j < |s| ensures s[j] != '>' {
          assert !OccursAt(s, ">", j);
          assert s[j..j + 1] == [s[j]];
        }
      }
      None
    case Some(k) =>
      assert s[k..k + 1] == [s[k]];
      assert forall j :: 1 <= j < k ==> s[j] != '>' by {
        forall j | 1 <= j < k ensures s[j] != '>' {
          assert !OccursAt(s, ">", j);
          assert s[j..j + 1] == [s[j]];
        }
      }
      if k >= 2 then Some(k) else None
  }

  /** `re.sub(r"<[^>]+>", " ", s)`: every tag, scanned left to right, becomes one space. */
  function StripTags(s: string): (r: string)
    decreases |s|
  {
    if s == [] then []
    else if s[0] == '<' && TagEnd(s).Some? then [' '] + StripTags(s[TagEnd(s).value + 1..])
    else [s[0]] + StripTags(s[1..])
  }

  /** No position of `s` starts a match of `<[^>]+>`. */
  predicate NoTags(s: string)
  {
    forall i :: 0 <= i < |s| && s[i] == '<' ==> TagEnd(s[i..]).None?
  }

  /** Text without any '>' has no tag to strip. */
  lemma {:induction false} StripTagsWithoutClose(s: string)
    requires forall i :: 0 <= i < |s| ==> s[i] != '>'
    ensures StripTags(s) == s
  {
    if s != [] {
      StripTagsWithoutClose(s[1..]);
    }
  }

  /** Text with no '<' before the first tag is kept as it is. */
  lemma {:induction false} StripTagsKeepsText(a: string, b: string)
    decreases |a|
    requires '<' !in a
    ensures StripTags(a + b) == a + StripTags(b)
  {
    if a == [] {
      assert a + b == b;
    } else {
      var ab := a + b;
      assert ab[0] == a[0] && ab[1..] == a[1..] + b;
      assert '<' !in a[1..];
      calc {
        StripTags(ab);
        { StripTagsOfText(ab); }
        [a[0]] + StripTags(a[1..] + b);
        { StripTagsKeepsText(a[1..], b); }
        [a[0]] + (a[1..] + StripTags(b));
        { assert a == [a[0]] + a[1..]; }
        a + StripTags(b);
      }
    }
  }

  /** A character other than '<' is kept, and stripping goes on after it. */
  lemma StripTagsOfText(s: string)
    requires s != [] && s[0] != '<'
    ensures StripTags(s) == [s[0]] + StripTags(s[1..])
  {
  }

  /** A tag `<x>` becomes exactly one space, and the text after it is stripped on its own. */
  lemma StripTagsReplacesTag(x: string, b: string)
    requires x != [] && forall i :: 0 <= i < |x| ==> x[i] != '>'
    ensures StripTags("<" + x + ">" + b) == " " + StripTags(b)
  {
    var s := "<" + x + ">" + b;
    assert s[|x| + 1] == '>';
    assert forall j :: 1 <= j <= |x| ==> s[j] == x[j - 1];
    assert TagEnd(s) == Some(|x| + 1);
    assert s[|x| + 2..] == b;
  }

  /** After stripping, no tag is left: the replacement never creates a new one. */
  lemma {:induction false} StripTagsLeavesNoTags(s: string)
    decreases |s|
    ensures NoTags(StripTags(s))
  {
    if s != [] {
      var r := StripTags(s);
      var tail: string;
      if s[0] == '<' && TagEnd(s).Some? {
        tail := StripTags(s[TagEnd(s).value + 1..]);
        StripTagsLeavesNoTags(s[TagEnd(s).value + 1..]);
      } else {
        tail := StripTags(s[1..]);
        StripTagsLeavesNoTags(s[1..]);
        if s[0] == '<' {
          if |s| > 1 && s[1] == '>' {
            assert tail[0] == '>';
            assert r[1] == '>';
          } else {
            StripTagsWithoutClose(s[1..]);
            assert r == s;
          }
          assert TagEnd(r[0..]).None? by { assert r[0..] == r; }
        }
      }
      assert r == [r[0]] + tail;
      forall i | 1 <= i < |r| && r[i] == '<'
        ensures TagEnd(r[i..]).None?
      {
        assert r[i..] == tail[i - 1..];
      }
    }
  }

  // ── decimal numbers ───────────────────────────────────────────────────────

  predicate IsDigit(c: char)
  {
    '0' <= c <= '9'
  }

  function DigitChar(d: nat): (c: char)
    requires d < 10
    ensures IsDigit(c) && c as int - '0' as int == d
  {
    ('0' as int + d) as char
  }

  /** `str(n)` for a non-negative integer: its decimal digits, without leading zeros. */
  function NatToDecimal(n: nat): (r: string)
    ensures r != []
    ensures forall i :: 0 <= i < |r| ==> IsDigit(r[i])
    ensures r[0] == '0' ==> n == 0
  {
    if n < 10 then [DigitChar(n)] else NatToDecimal(n / 10) + [DigitChar(n % 10)]
  }

  /** The value of a string of decimal digits, read most significant first. */
  function DecimalValue(s: string): nat
    requires forall i :: 0 <= i < |s| ==> IsDigit(s[i])
  {
    if s == [] then 0
    else
      assert IsDigit(s[|s| - 1]);
      10 * DecimalValue(s[..|s| - 1]) + (s[|s| - 1] as int - '0' as int)
  }

  /** Reading back what `NatToDecimal` wrote gives the number again. */
  lemma {:induction false} DecimalRoundTrip(n: nat)
    ensures DecimalValue(NatToDecimal(n)) == n
  {
    if n >= 10 {
      var s := NatToDecimal(n);
      DecimalRoundTrip(n / 10);
      assert s[..|s| - 1] == NatToDecimal(n / 10);
    }
  }

  lemma DecimalInjective(a: nat, b: nat)
    requires NatToDecimal(a) == NatToDecimal(b)
    ensures a == b
  {
    DecimalRoundTrip(a);
    DecimalRoundTrip(b);
  }
}
