/** The string helpers of the library module: `getFlag`, `slugify` and `truncate`. */
module Utils {
  import opened Wrappers
  import opened JsText

  // ---------------------------------------------------------------------------
  // getFlag
  // ---------------------------------------------------------------------------

  /** 127397 = U+1F1E6 (REGIONAL INDICATOR SYMBOL LETTER A) - 'A'. */
  const RegionalIndicatorOffset: int := 127397

  /**
   * `getFlag`: upper-case the code, split it into UTF-16 code units and emit
   * one code point per unit, the unit shifted by the regional-indicator offset.
   */
  function GetFlag(code: string): (r: string)
    ensures |r| == |Utf16(ToUpper(code))|
    ensures forall i :: 0 <= i < |r| ==>
      r[i] as int == RegionalIndicatorOffset + Utf16(ToUpper(code))[i]
  {
    var units := Utf16(ToUpper(code));
    seq(|units|, i requires 0 <= i < |units| => (RegionalIndicatorOffset + units[i]) as char)
  }

  /**
   * An ASCII letter, of either case, turns into the regional indicator of its
   * position in the alphabet: 'A' and 'a' into U+1F1E6, 'Z' and 'z' into U+1F1FF.
   */
  lemma GetFlagLetters(code: string, i: nat)
    requires i < |code|
    requires forall j :: 0 <= j < |code| ==> IsAsciiUpper(code[j]) || IsAsciiLower(code[j])
    ensures |GetFlag(code)| == |code|
    ensures GetFlag(code)[i] as int == 0x1F1E6 + (ToUpperChar(code[i]) as int - 'A' as int)
    ensures 0x1F1E6 <= GetFlag(code)[i] as int <= 0x1F1FF
  {
    var up := ToUpper(code);
    assert forall j :: 0 <= j < |up| ==> up[j] as int < 0x1_0000;
    Utf16Bmp(up, i);
  }

  /** Case does not matter to `getFlag`. */
  lemma GetFlagIgnoresCase(code: string)
    ensures GetFlag(ToLower(code)) == GetFlag(code)
  {
    assert ToUpper(ToLower(code)) == ToUpper(code);
  }

  // ---------------------------------------------------------------------------
  // slugify
  // ---------------------------------------------------------------------------

  /** Characters of the class `[\w-]` (without the Unicode flag, `\w` is ASCII). */
  predicate IsWordOrHyphen(c: char) {
    IsAsciiUpper(c) || IsAsciiLower(c) || ('0' <= c <= '9') || c == '_' || c == '-'
  }

  /** Characters a slug may contain: `[a-z0-9_-]`. */
  predicate IsSlugChar(c: char) {
    IsAsciiLower(c) || ('0' <= c <= '9') || c == '_' || c == '-'
  }

  predicate NoDoubleHyphen(s: string) {
    forall i :: 0 <= i < |s| - 1 ==> !(s[i] == '-' && s[i + 1] == '-')
  }

  function DropSpaces(s: string): (r: string)
    ensures |r| <= |s| && (r == [] || !IsSpace(r[0]))
    ensures s != [] && IsSpace(s[0]) ==> |r| < |s|
    ensures forall i :: 0 <= i < |r| ==> r[i] in s
  {
    if s != [] && IsSpace(s[0]) then DropSpaces(s[1..]) else s
  }

  /** `replace(/\s+/g, "-")`: each maximal run of white space becomes one hyphen. */
  function SpacesToHyphen(s: string): (r: string)
    ensures NoSpace(r)
    ensures forall i :: 0 <= i < |r| ==> r[i] == '-' || r[i] in s
    ensures NoSpace(s) ==> r == s
    decreases |s|
  {
    if s == [] then []
    else if IsSpace(s[0]) then "-" + SpacesToHyphen(DropSpaces(s))
    else [s[0]] + SpacesToHyphen(s[1..])
  }

  /** `replace(/[^\w-]+/g, "")`: every character outside `[\w-]` is removed. */
  function KeepWordChars(s: string): (r: string)
    ensures forall i :: 0 <= i < |r| ==> IsWordOrHyphen(r[i]) && r[i] in s
    ensures forall i :: 0 <= i < |s| && IsWordOrHyphen(s[i]) ==> s[i] in r
    ensures (forall i :: 0 <= i < |s| ==> IsWordOrHyphen(s[i])) ==> r == s
  {
    if s == [] then []
    else if IsWordOrHyphen(s[0]) then [s[0]] + KeepWordChars(s[1..])
    else KeepWordChars(s[1..])
  }

  function DropHyphens(s: string): (r: string)
    ensures |r| <= |s| && (r == [] || r[0] != '-')
    ensures s != [] && s[0] == '-' ==> |r| < |s|
    ensures forall i :: 0 <= i < |r| ==> r[i] in s
  {
    if s != [] && s[0] == '-' then DropHyphens(s[1..]) else s
  }

  /** `replace(/--+/g, "-")`: each maximal run of hyphens becomes one hyphen. */
  function CollapseHyphens(s: string): (r: string)
    ensures NoDoubleHyphen(r)
    ensures forall i :: 0 <= i < |r| ==> r[i] in s
    ensures r == [] <==> s == []
    ensures s != [] ==> r[0] == s[0]
    ensures NoDoubleHyphen(s) ==> r == s
    decreases |s|
  {
    if s == [] then []
    else if s[0] == '-' then
      var rest := DropHyphens(s);
      assert NoDoubleHyphen(s) ==> rest == s[1..] by {
        if NoDoubleHyphen(s) {
          assert s[1..] == [] || s[1..][0] != '-';
          assert DropHyphens(s[1..]) == s[1..];
        }
      }
      "-" + CollapseHyphens(rest)
    else [s[0]] + CollapseHyphens(s[1..])
  }

  /** A run of white space is dropped up to the first character after it. */
  lemma {:induction false} DropSpacesRun(ws: string, post: string)
    requires Spaces(ws) && (post == [] || !IsSpace(post[0]))
    ensures DropSpaces(ws + post) == post
    decreases |ws|
  {
    if ws == [] {
      assert ws + post == post;
    } else {
      assert (ws + post)[1..] == ws[1..] + post;
      DropSpacesRun(ws[1..], post);
    }
  }

  /** A maximal run of white space after a space-free prefix becomes exactly one hyphen. */
  lemma {:induction false} SpacesToHyphenRun(pre: string, ws: string, post: string)
    requires NoSpace(pre) && ws != [] && Spaces(ws) && (post == [] || !IsSpace(post[0]))
    ensures SpacesToHyphen(pre + ws + post) == pre + "-" + SpacesToHyphen(post)
    decreases |pre|
  {
    if pre == [] {
      assert pre + ws + post == ws + post;
      DropSpacesRun(ws, post);
    } else {
      var tail := pre[1..];
      assert pre == [pre[0]] + tail;
      assert pre + ws + post == [pre[0]] + (tail + ws + post);
      var h := SpacesToHyphen(post);
      assert pre + "-" + h == [pre[0]] + (tail + "-" + h);
      SpacesToHyphenRun(tail, ws, post);
    }
  }

  /** The filter works character by character: it distributes over concatenation. */
  lemma {:induction false} KeepWordCharsAppend(x: string, y: string)
    ensures KeepWordChars(x + y) == KeepWordChars(x) + KeepWordChars(y)
    decreases |x|
  {
    if x == [] {
      assert x + y == y;
    } else {
      assert (x + y)[1..] == x[1..] + y;
      KeepWordCharsAppend(x[1..], y);
    }
  }

  /** One character is kept exactly when it is in `[\w-]`. */
  lemma KeepWordCharsOne(c: char)
    ensures IsWordOrHyphen(c) ==> KeepWordChars([c]) == [c]
    ensures !IsWordOrHyphen(c) ==> KeepWordChars([c]) == []
  {
  }

  /** A run of hyphens is dropped up to the first character after it. */
  lemma {:induction false} DropHyphensRun(hs: string, post: string)
    requires (forall i :: 0 <= i < |hs| ==> hs[i] == '-') && (post == [] || post[0] != '-')
    ensures DropHyphens(hs + post) == post
    decreases |hs|
  {
    if hs == [] {
      assert hs + post == post;
    } else {
      assert (hs + post)[1..] == hs[1..] + post;
      DropHyphensRun(hs[1..], post);
    }
  }

  lemma NoDoubleHyphenTail(s: string)
    requires s != [] && NoDoubleHyphen(s)
    ensures NoDoubleHyphen(s[1..])
  {
    var t := s[1..];
    forall i | 0 <= i < |t| - 1 ensures !(t[i] == '-' && t[i + 1] == '-') {
      assert t[i] == s[i + 1] && t[i + 1] == s[i + 2];
    }
  }

  /** One step of the collapse on a text whose first character is not followed by a hyphen run. */
  lemma CollapseHyphensHead(s: string)
    requires s != [] && (s[0] != '-' || (|s| >= 2 && s[1] != '-'))
    ensures CollapseHyphens(s) == [s[0]] + CollapseHyphens(s[1..])
  {
    if s[0] == '-' {
      assert DropHyphens(s[1..]) == s[1..];
    }
  }

  /**
   * A maximal run of hyphens after a prefix that has no double hyphen and does not
   * end in one becomes exactly one hyphen.
   */
  lemma {:induction false} CollapseHyphensRun(pre: string, hs: string, post: string)
    requires NoDoubleHyphen(pre) && (pre == [] || pre[|pre| - 1] != '-')
    requires hs != [] && forall i :: 0 <= i < |hs| ==> hs[i] == '-'
    requires post == [] || post[0] != '-'
    ensures CollapseHyphens(pre + hs + post) == pre + "-" + CollapseHyphens(post)
    decreases |pre|
  {
    if pre == [] {
      assert pre + hs + post == hs + post;
      DropHyphensRun(hs, post);
    } else {
      var tail := pre[1..];
      var t := tail + hs + post;
      var s := pre + hs + post;
      var c := CollapseHyphens(post);
      assert pre == [pre[0]] + tail;
      assert s == [pre[0]] + t && s[1..] == t;
      assert pre + "-" + c == [pre[0]] + (tail + "-" + c);
      assert pre[0] == '-' ==> |pre| >= 2 && s[1] == pre[1] && pre[1] != '-';
      NoDoubleHyphenTail(pre);
      assert tail == [] || tail[|tail| - 1] == pre[|pre| - 1];
      CollapseHyphensRun(tail, hs, post);
      CollapseHyphensHead(s);
    }
  }

  /** `slugify`: lower-case, trim, hyphenate white space, filter, collapse hyphens. */
  function Slugify(text: string): (r: string)
    ensures forall i :: 0 <= i < |r| ==> IsSlugChar(r[i])
    ensures NoDoubleHyphen(r)
  {
    var kept := KeepWordChars(SpacesToHyphen(Trim(ToLower(text))));
    SlugCharsBeforeCollapse(text);
    CollapseHyphens(kept)
  }

  predicate NoUpper(s: string) {
    forall i :: 0 <= i < |s| ==> !IsAsciiUpper(s[i])
  }

  lemma ToLowerNoUpper(s: string)
    ensures NoUpper(ToLower(s))
  {
    var r := ToLower(s);
    forall i | 0 <= i < |r| ensures !IsAsciiUpper(r[i]) {
      assert r[i] == ToLowerChar(s[i]);
    }
  }

  /** A text drawn from the characters of an upper-case-free text, and hyphens, is upper-case free. */
  lemma NoUpperKept(s: string, r: string)
    requires NoUpper(s) && forall i :: 0 <= i < |r| ==> r[i] == '-' || r[i] in s
    ensures NoUpper(r)
  {
    forall i | 0 <= i < |r| ensures !IsAsciiUpper(r[i]) {
      if r[i] != '-' {
        var j :| 0 <= j < |s| && s[j] == r[i];
      }
    }
  }

  /** Every character left for the hyphen collapse is a slug character. */
  lemma SlugCharsBeforeCollapse(text: string)
    ensures var kept := KeepWordChars(SpacesToHyphen(Trim(ToLower(text))));
      forall c :: c in kept ==> IsSlugChar(c)
  {
    var lower := ToLower(text);
    var trimmed := Trim(lower);
    var spaced := SpacesToHyphen(trimmed);
    var kept := KeepWordChars(spaced);
    ToLowerNoUpper(text);
    NoUpperKept(lower, trimmed);
    NoUpperKept(trimmed, spaced);
    NoUpperKept(spaced, kept);
    forall c | c in kept ensures IsSlugChar(c) {
      var j :| 0 <= j < |kept| && kept[j] == c;
      assert IsWordOrHyphen(kept[j]) && !IsAsciiUpper(kept[j]);
    }
  }

  /** Slug characters pass every step before the collapse unchanged. */
  lemma SlugCharsFixed(s: string)
    requires forall i :: 0 <= i < |s| ==> IsSlugChar(s[i])
    ensures ToLower(s) == s && NoSpace(s)
    ensures forall i :: 0 <= i < |s| ==> IsWordOrHyphen(s[i])
  {
    var lower := ToLower(s);
    forall i | 0 <= i < |s| ensures lower[i] == s[i] {
      assert !IsAsciiUpper(s[i]);
    }
  }

  /** A slug is its own slug. */
  lemma SlugifyIdempotent(text: string)
    ensures Slugify(Slugify(text)) == Slugify(text)
  {
    var s := Slugify(text);
    SlugCharsFixed(s);
    TrimNoSpace(s);
    assert SpacesToHyphen(s) == s;
    assert KeepWordChars(s) == s;
  }

  // ---------------------------------------------------------------------------
  // truncate
  // ---------------------------------------------------------------------------

  const Ellipsis: string := "..."

  /**
   * `truncate(text, max = 100)`: nothing for a missing or empty text, the text
   * itself when it fits, else its first `max` characters and an ellipsis
   * (`substring` treats a negative end as 0).
   */
  function Truncate(text: Option<string>, max: int := 100): (r: Option<string>)
    ensures r.None? <==> (text.None? || text.value == [])
    ensures text.Some? && 0 < |text.value| <= max ==> r == text
    ensures text.Some? && text.value != [] && |text.value| > max ==>
      var keep := if max < 0 then 0 else max;
      |r.value| == keep + 3 && r.value[..keep] == text.value[..keep] && r.value[keep..] == Ellipsis
  {
    match text
    case None => None
    case Some(t) =>
      if t == [] then None
      else if |t| <= max then Some(t)
      else Some(t[..if max < 0 then 0 else max] + Ellipsis)
  }

  /** With the default bound a text of at most 100 characters stays whole and a longer one becomes 103 long. */
  lemma TruncateDefault(t: string)
    requires t != []
    ensures |t| <= 100 ==> Truncate(Some(t)) == Some(t)
    ensures |t| > 100 ==> |Truncate(Some(t)).value| == 103 && Truncate(Some(t)).value[..100] == t[..100]
  {
  }
}
