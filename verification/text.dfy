/** Case-insensitive substring search as used by the title search box:
    lower-casing (restricted to ASCII letters) and the substring test. */
module Text {

  predicate IsUpper(c: char) {
    'A' <= c <= 'Z'
  }

  /** Lower-cases one character; only the ASCII letters `A`..`Z` are mapped. */
  function LowerChar(c: char): (r: char)
    ensures !IsUpper(r)
    ensures IsUpper(c) ==> 'a' <= r <= 'z'
    ensures IsUpper(c) ==> r as int - 'a' as int == c as int - 'A' as int
    ensures !IsUpper(c) ==> r == c
  {
    if IsUpper(c) then (c as int - 'A' as int + 'a' as int) as char else c
  }

  /** Lower-cases a string character by character. */
  function ToLower(s: string): (r: string)
    ensures |r| == |s|
    ensures forall i :: 0 <= i < |s| ==> r[i] == LowerChar(s[i])
  {
    if |s| == 0 then "" else [LowerChar(s[0])] + ToLower(s[1..])
  }

  /** `lower` is the lower-case form of the capital `upper`. */
  predicate CaseVariant(upper: char, lower: char) {
    IsUpper(upper) && lower as int - 'a' as int == upper as int - 'A' as int
  }

  /** Two characters lower-case alike exactly when they are equal or are the same
      ASCII letter in different case. */
  lemma LowerCharSameIff(c: char, d: char)
    ensures LowerChar(c) == LowerChar(d) <==> c == d || CaseVariant(c, d) || CaseVariant(d, c)
  {
  }

  /** The strings are equal up to the case of ASCII letters. */
  predicate SameIgnoringCase(a: string, b: string) {
    |a| == |b| && forall i :: 0 <= i < |a| ==> a[i] == b[i] || CaseVariant(a[i], b[i]) || CaseVariant(b[i], a[i])
  }

  /** Two strings lower-case alike exactly when they differ only in letter case. */
  lemma ToLowerSameIff(a: string, b: string)
    ensures ToLower(a) == ToLower(b) <==> SameIgnoringCase(a, b)
  {
    if SameIgnoringCase(a, b) {
      forall i | 0 <= i < |a|
        ensures ToLower(a)[i] == ToLower(b)[i]
      {
        LowerCharSameIff(a[i], b[i]);
      }
    }
    if ToLower(a) == ToLower(b) {
      forall i | 0 <= i < |a|
        ensures a[i] == b[i] || CaseVariant(a[i], b[i]) || CaseVariant(b[i], a[i])
      {
        assert ToLower(a)[i] == ToLower(b)[i];
        LowerCharSameIff(a[i], b[i]);
      }
    }
  }

  /** `needle` occurs in `hay` starting at position `i`. */
  ghost predicate OccursAt(hay: string, needle: string, i: int) {
    0 <= i && i + |needle| <= |hay| && hay[i..i + |needle|] == needle
  }

  /** Whether `needle` occurs anywhere in `hay`; the empty needle occurs in every string. */
  function Includes(hay: string, needle: string): (r: bool)
    ensures |needle| == 0 ==> r
    ensures r ==> |needle| <= |hay|
    ensures |needle| == |hay| ==> (r <==> hay == needle)
    decreases |hay|
  {
    if |needle| > |hay| then false
    else if hay[..|needle|] == needle then true
    else Includes(hay[1..], needle)
  }

  /** The scan agrees with the positional definition of an occurrence, in both directions. */
  lemma {:induction false} IncludesIffOccurs(hay: string, needle: string)
    ensures Includes(hay, needle) <==> exists i :: OccursAt(hay, needle, i)
    decreases |hay|
  {
    if |needle| > |hay| {
    } else if hay[..|needle|] == needle {
      assert OccursAt(hay, needle, 0);
    } else {
      IncludesIffOccurs(hay[1..], needle);
      if Includes(hay[1..], needle) {
        var i :| OccursAt(hay[1..], needle, i);
        assert hay[1..][i..i + |needle|] == hay[i + 1..i + 1 + |needle|];
        assert OccursAt(hay, needle, i + 1);
      } else {
        forall i | OccursAt(hay, needle, i)
          ensures false
        {
          if i != 0 {
            assert hay[1..][i - 1..i - 1 + |needle|] == hay[i..i + |needle|];
            assert OccursAt(hay[1..], needle, i - 1);
          }
        }
      }
    }
  }

  /** The empty search string matches every title. */
  lemma IncludesEmpty(hay: string)
    ensures Includes(hay, "")
  {
  }
}
