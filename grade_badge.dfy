/** The grade badge: from a product's grade string, the CSS class the badge
    carries and the text it shows ("MG - Master Grade"). Case conversion is
    over ASCII letters. */
module GradeBadge {

  predicate IsLowerLetter(c: char) { 'a' <= c <= 'z' }

  predicate IsUpperLetter(c: char) { 'A' <= c <= 'Z' }

  function UpperChar(c: char): char {
    if IsLowerLetter(c) then (c as int - 32) as char else c
  }

  function LowerChar(c: char): char {
    if IsUpperLetter(c) then (c as int + 32) as char else c
  }

  /** `toUpperCase()`: every letter upper-case, everything else kept. */
  function ToUpper(s: string): (r: string)
    ensures |r| == |s|
    ensures forall i :: 0 <= i < |s| ==> r[i] == UpperChar(s[i])
    ensures forall i :: 0 <= i < |r| ==> !IsLowerLetter(r[i])
  {
    if s == [] then [] else [UpperChar(s[0])] + ToUpper(s[1..])
  }

  /** `toLowerCase()`: every letter lower-case, everything else kept. */
  function ToLower(s: string): (r: string)
    ensures |r| == |s|
    ensures forall i :: 0 <= i < |s| ==> r[i] == LowerChar(s[i])
    ensures forall i :: 0 <= i < |r| ==> !IsUpperLetter(r[i])
  {
    if s == [] then [] else [LowerChar(s[0])] + ToLower(s[1..])
  }

  /** Upper-casing forgets how a string was cased: lower-casing first changes nothing. */
  lemma UpperOfLower(s: string)
    ensures ToUpper(ToLower(s)) == ToUpper(s)
  {
  }

  /** Upper-casing twice is upper-casing once. */
  lemma UpperIdempotent(s: string)
    ensures ToUpper(ToUpper(s)) == ToUpper(s)
  {
  }

  /** The badge's class: "grade-" and the grade lower-cased. */
  function GradeClass(grade: string): (r: string)
    ensures |r| == 6 + |grade| && r[..6] == "grade-"
    ensures forall i :: 6 <= i < |r| ==> !IsUpperLetter(r[i])
    ensures ToUpper(r[6..]) == ToUpper(grade)
  {
    UpperOfLower(grade);
    var r := "grade-" + ToLower(grade);
    assert r[6..] == ToLower(grade);
    r
  }

  /** The lookup table of grade names, keyed by upper-case code. */
  const GradeNames: map<string, string> := map[
    "HG" := "High Grade",
    "MG" := "Master Grade",
    "SD" := "Super Deformed",
    "PG" := "Perfect Grade",
    "RG" := "Real Grade"
  ]

  /** The table's name for `code`, or `code` itself when the table has none.
      Every name in the table differs from its code, so the name is the code
      exactly when the table does not know it. */
  function GradeName(code: string): (name: string)
    ensures code in GradeNames ==> name == GradeNames[code]
    ensures name == code <==> code !in GradeNames
  {
    if code in GradeNames then
      NamesEndLower(code);
      GradeNames[code]
    else code
  }

  /** The badge's text: the upper-cased grade, " - ", and its name. */
  function GradeLabel(grade: string): (text: string)
    ensures |text| >= |grade| + 3
    ensures text[..|grade|] == ToUpper(grade) && text[|grade|..|grade| + 3] == " - "
    ensures text[|grade| + 3..] == GradeName(ToUpper(grade))
  {
    var code := ToUpper(grade);
    var text := code + " - " + GradeName(code);
    assert text[|grade| + 3..] == GradeName(code);
    text
  }

  /** Each of the five grades, upper- or lower-case, is labelled with its
      code, " - " and its name from the table. */
  lemma KnownGradeLabel(code: string)
    requires code in GradeNames
    ensures GradeLabel(code) == GradeLabel(ToLower(code)) == code + " - " + GradeNames[code]
  {
    NamesEndLower(code);
    assert ToUpper(code) == code;
    UpperOfLower(code);
  }

  /** A grade outside the table is shown as "<CODE> - <CODE>". */
  lemma UnknownLabel(grade: string)
    requires ToUpper(grade) !in GradeNames
    ensures GradeLabel(grade) == ToUpper(grade) + " - " + ToUpper(grade)
  {
  }

  /** Every code in the table is two upper-case letters, and every name in
      it ends with a lower-case letter. */
  lemma NamesEndLower(code: string)
    requires code in GradeNames
    ensures |code| == 2 && IsUpperLetter(code[0]) && IsUpperLetter(code[1])
    ensures |GradeNames[code]| > 0 && IsLowerLetter(GradeNames[code][|GradeNames[code]| - 1])
  {
  }

  /** A grade from the table and one outside it never share a label: the
      first ends in a lower-case letter, the second cannot. */
  lemma KnownNotUnknown(known: string, other: string)
    requires known in GradeNames && other !in GradeNames
    requires forall i :: 0 <= i < |other| ==> !IsLowerLetter(other[i])
    ensures known + " - " + GradeNames[known] != other + " - " + other
  {
    NamesEndLower(known);
    var name := GradeNames[known];
    var l1, l2 := known + " - " + name, other + " - " + other;
    assert l1[|l1| - 1] == name[|name| - 1];
    if other == [] {
      assert l2[|l2| - 1] == ' ';
    } else {
      assert l2[|l2| - 1] == other[|other| - 1];
    }
  }

  /** Two grades get the same label exactly when they agree up to case: the
      label ignores case, and distinct grades are told apart. */
  lemma LabelDeterminesCode(a: string, b: string)
    ensures GradeLabel(a) == GradeLabel(b) <==> ToUpper(a) == ToUpper(b)
  {
    var ca, cb := ToUpper(a), ToUpper(b);
    var la, lb := GradeLabel(a), GradeLabel(b);
    assert la[..|ca|] == ca && lb[..|cb|] == cb;
    if la == lb && ca != cb {
      if ca in GradeNames && cb in GradeNames {
        NamesEndLower(ca);
        NamesEndLower(cb);
      } else if ca in GradeNames {
        KnownNotUnknown(ca, cb);
      } else if cb in GradeNames {
        KnownNotUnknown(cb, ca);
      }
    }
  }
}
