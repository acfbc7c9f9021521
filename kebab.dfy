/**
 * `kebabCase` (index.js:38-40): `str.replace(/([a-z])([A-Z])/g, "$1-$2").toLowerCase()`.
 * The regular expression scans left to right and resumes after each match; the
 * character classes are ASCII.
 */
module Kebab {

  predicate IsLower(c: char) { 'a' <= c <= 'z' }

  predicate IsUpper(c: char) { 'A' <= c <= 'Z' }

  /** True when positions i and i+1 hold a lowercase then an uppercase letter. */
  predicate PairAt(s: string, i: int)
  {
    0 <= i && i + 1 < |s| && IsLower(s[i]) && IsUpper(s[i + 1])
  }

  function Lower(c: char): (r: char)
    ensures !IsUpper(r)
    ensures IsUpper(c) ==> IsLower(r) && r as int == c as int + 32
    ensures !IsUpper(c) ==> r == c
  {
    if IsUpper(c) then (c as int + 32) as char else c
  }

  /** `String.prototype.toLowerCase`, restricted to ASCII letters. */
  function LowerAll(s: string): (r: string)
    ensures |r| == |s|
    ensures forall i :: 0 <= i < |s| ==> r[i] == Lower(s[i])
  {
    seq(|s|, i requires 0 <= i < |s| => Lower(s[i]))
  }

  /** The global replace: each match `xY` becomes `x-Y` and the scan resumes after `Y`. */
  function Dashed(s: string): string
    decreases |s|
  {
    if |s| < 2 then s
    else if IsLower(s[0]) && IsUpper(s[1]) then [s[0], '-', s[1]] + Dashed(s[2..])
    else [s[0]] + Dashed(s[1..])
  }

  function KebabCase(s: string): (r: string)
    ensures forall i :: 0 <= i < |r| ==> !IsUpper(r[i])
  {
    LowerAll(Dashed(s))
  }

  /** Reference definition: every character, followed by a dash when it starts a lower-upper pair. */
  function Separated(s: string): string
    decreases |s|
  {
    if |s| == 0 then []
    else [s[0]] + (if PairAt(s, 0) then "-" else "") + Separated(s[1..])
  }

  /** The number of adjacent lower-upper pairs in s. */
  function PairCount(s: string): nat
    decreases |s|
  {
    if |s| < 2 then 0
    else (if PairAt(s, 0) then 1 else 0) + PairCount(s[1..])
  }

  /** The regular-expression scan inserts a dash inside every lower-upper pair, not only in non-overlapping ones. */
  lemma {:induction false} DashedIsSeparated(s: string)
    ensures Dashed(s) == Separated(s)
    decreases |s|
  {
    if |s| < 2 {
      if |s| == 1 {
        assert Separated(s[1..]) == [];
      }
    } else if PairAt(s, 0) {
      // s[1] is uppercase, so it cannot start a pair itself
      DashedIsSeparated(s[2..]);
      assert !PairAt(s[1..], 0);
      assert s[1..][1..] == s[2..];
      assert Separated(s[1..]) == [s[1]] + Separated(s[2..]);
    } else {
      DashedIsSeparated(s[1..]);
    }
  }

  lemma {:induction false} SeparatedLength(s: string)
    ensures |Separated(s)| == |s| + PairCount(s)
    decreases |s|
  {
    if |s| > 0 {
      SeparatedLength(s[1..]);
      if |s| == 1 {
        assert !PairAt(s, 0);
      }
    }
  }

  /** The kebab-cased name is the input, lowercased, with one dash per lower-upper pair. */
  lemma KebabCaseLength(s: string)
    ensures |KebabCase(s)| == |s| + PairCount(s)
  {
    DashedIsSeparated(s);
    SeparatedLength(s);
  }

  /** A string without lower-upper pairs only has its letters lowercased. */
  lemma {:induction false} KebabCaseWithoutPairs(s: string)
    requires PairCount(s) == 0
    ensures KebabCase(s) == LowerAll(s)
    decreases |s|
  {
    assert Dashed(s) == s by {
      DashedIsSeparated(s);
      SeparatedWithoutPairs(s);
    }
  }

  lemma {:induction false} SeparatedWithoutPairs(s: string)
    requires PairCount(s) == 0
    ensures Separated(s) == s
    decreases |s|
  {
    if |s| > 0 {
      if |s| >= 2 {
        SeparatedWithoutPairs(s[1..]);
      } else {
        assert Separated(s[1..]) == [];
      }
      assert !PairAt(s, 0);
      assert s == [s[0]] + s[1..];
    }
  }

  /** `customID` is read from the `data-custom-id` attribute. */
  lemma KebabCaseCustomId()
    ensures KebabCase("customID") == "custom-id"
  {
    assert Dashed("D") == "D";
    assert "mID"[2..] == "D";
    assert Dashed("mID") == "m-ID";
    assert "omID"[1..] == "mID";
    assert Dashed("omID") == "om-ID";
    assert "tomID"[1..] == "omID";
    assert Dashed("tomID") == "tom-ID";
    assert "stomID"[1..] == "tomID";
    assert Dashed("stomID") == "stom-ID";
    assert "ustomID"[1..] == "stomID";
    assert Dashed("ustomID") == "ustom-ID";
    assert "customID"[1..] == "ustomID";
    assert Dashed("customID") == "custom-ID";
    assert LowerAll("custom-ID") == "custom-id";
  }

  /** `onChange` is read from the `data-on-change` attribute. */
  lemma KebabCaseOnChange()
    ensures KebabCase("onChange") == "on-change"
  {
    assert Dashed("e") == "e";
    assert "ge"[1..] == "e";
    assert Dashed("ge") == "ge";
    assert "nge"[1..] == "ge";
    assert Dashed("nge") == "nge";
    assert "ange"[1..] == "nge";
    assert Dashed("ange") == "ange";
    assert "hange"[1..] == "ange";
    assert Dashed("hange") == "hange";
    assert "nChange"[2..] == "hange";
    assert Dashed("nChange") == "n-Change";
    assert "onChange"[1..] == "nChange";
    assert Dashed("onChange") == "on-Change";
    assert LowerAll("on-Change") == "on-change";
  }
}
