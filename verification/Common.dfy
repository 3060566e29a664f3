/** Types, the decimal notation, white space and lower-casing, which several components share. */
module Common {

  datatype Option<+T> = None | Some(value: T)

  newtype byte = x: int | 0 <= x < 256

  predicate Digits(s: string) {
    forall i :: 0 <= i < |s| ==> '0' <= s[i] <= '9'
  }

  function Digit(n: nat): char
    requires n < 10
  {
    ('0' as int + n) as char
  }

  function Decimal(n: nat): (s: string)
    ensures s != "" && Digits(s)
  {
    if n < 10 then [Digit(n)] else Decimal(n / 10) + [Digit(n % 10)]
  }

  function Pow10(d: nat): nat {
    if d == 0 then 1 else 10 * Pow10(d - 1)
  }

  lemma {:induction false} DecimalLength(n: nat, d: nat)
    requires 0 < d && n < Pow10(d)
    ensures |Decimal(n)| <= d
  {
    if n >= 10 {
      DecimalLength(n / 10, d - 1);
    }
  }

  /**
   Lower-casing. Of the letters beyond Z only the Kelvin sign turns into one that a role or a header name read here
   may contain.
   */
  function LowerChar(c: char): char {
    if 'A' <= c <= 'Z' then (c as int + 32) as char else if c == '\U{212A}' then 'k' else c
  }

  function Lower(s: string): string {
    seq(|s|, i requires 0 <= i < |s| => LowerChar(s[i]))
  }

  /** `c` is the character `d` itself, which is no capital, or the capital of the letter `d`. */
  predicate LetterOf(c: char, d: char) {
    || (c == d && !('A' <= c <= 'Z') && c != '\U{212A}')
    || ('A' <= c <= 'Z' && 'a' <= d <= 'z' && c as int - 'A' as int == d as int - 'a' as int)
    || (c == '\U{212A}' && d == 'k')
  }

  /** `text` spells `name` in letters of either case. */
  predicate Spells(text: string, name: string) {
    |text| == |name| && forall i :: 0 <= i < |text| ==> LetterOf(text[i], name[i])
  }

  lemma LetterLower(c: char, d: char)
    ensures LowerChar(c) == d <==> LetterOf(c, d)
  {
  }

  /** Lower-casing finds the name that a text spells. */
  lemma SpellsLower(text: string, name: string)
    ensures Lower(text) == name <==> Spells(text, name)
  {
    hide LowerChar, LetterOf;
    forall c, d
      ensures LowerChar(c) == d <==> LetterOf(c, d)
    {
      LetterLower(c, d);
    }
    if Spells(text, name) {
      forall i | 0 <= i < |text|
        ensures Lower(text)[i] == name[i]
      {
        assert LetterOf(text[i], name[i]);
      }
    }
  }

  /** White space, as trimming understands it. */
  predicate Space(c: char) {
    || '\t' <= c <= '\r' || c == ' ' || c == '\U{00A0}' || c == '\U{1680}' || '\U{2000}' <= c <= '\U{200A}'
    || c == '\U{2028}' || c == '\U{2029}' || c == '\U{202F}' || c == '\U{205F}' || c == '\U{3000}' || c == '\U{FEFF}'
  }

  /** White space by its code points. */
  lemma SpaceIs(c: char)
    ensures Space(c) <==>
            var n := c as int;
            || 9 <= n <= 13 || n == 32 || n == 160 || n == 5760 || 8192 <= n <= 8202 || n == 8232 || n == 8233
            || n == 8239 || n == 8287 || n == 12288 || n == 65279
  {
  }

  // A text with nothing but blanks around it.

  predicate BlankOnly(blank: char -> bool, s: string) {
    forall i :: 0 <= i < |s| ==> blank(s[i])
  }

  /** Neither begins nor ends with a blank. */
  predicate Tidy(blank: char -> bool, s: string) {
    s != "" ==> !blank(s[0]) && !blank(s[|s| - 1])
  }

  ghost predicate PaddedBy(blank: char -> bool, value: string, before: string, core: string, after: string) {
    BlankOnly(blank, before) && BlankOnly(blank, after) && value == before + core + after
  }

  /** `value` is `core` with nothing but blanks around it. */
  ghost predicate Padded(blank: char -> bool, value: string, core: string) {
    exists before, after :: PaddedBy(blank, value, before, core, after)
  }

  lemma PaddedSelf(blank: char -> bool, s: string)
    ensures Padded(blank, s, s)
  {
    assert PaddedBy(blank, s, "", s, "");
  }

  lemma PaddedMore(blank: char -> bool, c: char, value: string, core: string)
    requires blank(c) && Padded(blank, value, core)
    ensures Padded(blank, [c] + value, core) && Padded(blank, value + [c], core)
  {
    var before, after :| PaddedBy(blank, value, before, core, after);
    assert PaddedBy(blank, [c] + value, [c] + before, core, after) by {
      assert [c] + value == ([c] + before) + core + after;
    }
    assert PaddedBy(blank, value + [c], before, core, after + [c]) by {
      assert value + [c] == before + core + (after + [c]);
    }
  }

  lemma CoreBegins(s: string, before: string, core: string, after: string)
    requires s == before + core + after && core != ""
    ensures |before| < |s| && s[|before|] == core[0]
  {
  }

  lemma BlanksHaveNoCore(blank: char -> bool, s: string, before: string, core: string, after: string)
    requires BlankOnly(blank, s) && s == before + core + after && Tidy(blank, core)
    ensures core == ""
  {
    if core != "" {
      CoreBegins(s, before, core, after);
    }
  }

  /** A tidy core is determined by the text. */
  lemma PaddedOnce(blank: char -> bool, s: string, core: string, core': string)
    requires Tidy(blank, core) && Tidy(blank, core') && Padded(blank, s, core) && Padded(blank, s, core')
    ensures core == core'
  {
    var before, after :| PaddedBy(blank, s, before, core, after);
    var before', after' :| PaddedBy(blank, s, before', core', after');
    if core == "" {
      BlanksHaveNoCore(blank, s, before', core', after');
    } else if core' == "" {
      BlanksHaveNoCore(blank, s, before, core, after);
    } else {
      assert s[|before|] == core[0] && s[|before'|] == core'[0];
      assert |before| == |before'|;
      var end, end' := |before| + |core| - 1, |before'| + |core'| - 1;
      assert s[end] == core[|core| - 1] && s[end'] == core'[|core'| - 1];
      assert forall k :: end < k < |s| ==> s[k] == after[k - end - 1];
      assert forall k :: end' < k < |s| ==> s[k] == after'[k - end' - 1];
      assert end == end';
      assert core == s[|before|..end + 1] && core' == s[|before'|..end' + 1];
    }
  }
}
