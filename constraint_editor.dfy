/** The constraint file editor (EditorV2/Editor/ConstraintFileEditor.xaml.cs): the "new zone" button
    inserts the element the zone dialog wrote into the file's text. */
module ConstraintEditors {
  import opened Wrappers

  /** `pat` occurs in `s` starting at `i`. */
  predicate MatchAt(s: string, pat: string, i: int)
  {
    0 <= i && i + |pat| <= |s| && s[i..i + |pat|] == pat
  }

  /** The first occurrence of `pat` in `s` at or after `i`, or -1. */
  function IndexFrom(s: string, pat: string, i: nat): (r: int)
    ensures r == -1 <==> forall j :: i <= j ==> !MatchAt(s, pat, j)
    ensures r != -1 ==> i <= r && MatchAt(s, pat, r) && forall j :: i <= j < r ==> !MatchAt(s, pat, j)
    decreases |s| - i
  {
    if i + |pat| > |s| then -1 else if MatchAt(s, pat, i) then i else IndexFrom(s, pat, i + 1)
  }

  /** `string.IndexOf`: the first occurrence of `pat`, or -1 when there is none. */
  function IndexOf(s: string, pat: string): (r: int)
    ensures r == -1 <==> forall j :: !MatchAt(s, pat, j)
    ensures r != -1 ==> MatchAt(s, pat, r) && forall j :: j < r ==> !MatchAt(s, pat, j)
  {
    IndexFrom(s, pat, 0)
  }

  /** The last occurrence of `pat` in `s` at or before `i`, or -1. */
  function LastFrom(s: string, pat: string, i: int): (r: int)
    ensures r == -1 <==> forall j :: j <= i ==> !MatchAt(s, pat, j)
    ensures r != -1 ==> r <= i && MatchAt(s, pat, r) && forall j :: r < j <= i ==> !MatchAt(s, pat, j)
    decreases i + 1
  {
    if i < 0 then -1 else if MatchAt(s, pat, i) then i else LastFrom(s, pat, i - 1)
  }

  /** `string.LastIndexOf`: the last occurrence of `pat`, or -1 when there is none. */
  function LastIndexOf(s: string, pat: string): (r: int)
    ensures r == -1 <==> forall j :: !MatchAt(s, pat, j)
    ensures r != -1 ==> MatchAt(s, pat, r) && forall j :: r < j ==> !MatchAt(s, pat, j)
  {
    LastFrom(s, pat, |s| - |pat|)
  }

  /** `string.Insert`: `x` put in front of position `i`; what came before stays before it and what came
      after follows it. */
  function Insert(s: string, i: nat, x: string): (r: string)
    requires i <= |s|
    ensures |r| == |s| + |x|
    ensures r[..i] == s[..i] && r[i..i + |x|] == x && r[i + |x|..] == s[i..]
  {
    s[..i] + x + s[i..]
  }

  const ClosingTag := "</constraints>"
  const SetClosingTag := "</floorconstraint>"
  const SetOpening := "<set name=\"GENERATED_SET\">\n<floorconstraint>\n"

  /** The set written around the zone when the file has no floor constraint yet. */
  function GeneratedSet(zone: string): string
  {
    SetOpening + zone + "\n" + SetClosingTag + "\n</set>\n"
  }

  /** The text after the "new zone" button: nothing when the file has no `</constraints>`; otherwise the zone
      goes before the last `</floorconstraint>`, or, when there is none, a new set holding it goes before
      the first `</constraints>`. */
  function InsertZone(text: string, zone: string): (r: Option<string>)
    ensures r.None? <==> forall j :: !MatchAt(text, ClosingTag, j)
  {
    var closingTag := IndexOf(text, ClosingTag);
    if closingTag == -1 then None
    else
      var lastSetClosingTagIndex := LastIndexOf(text, SetClosingTag);
      if lastSetClosingTagIndex == -1 then Some(Insert(text, closingTag, GeneratedSet(zone)))
      else Some(Insert(text, lastSetClosingTagIndex, zone + "\n"))
  }

  /** The two insertions, spelled with the occurrences they are placed at. */
  lemma InsertZoneCases(text: string, zone: string, c: nat)
    requires MatchAt(text, ClosingTag, c) && forall j :: j < c ==> !MatchAt(text, ClosingTag, j)
    ensures (forall j :: !MatchAt(text, SetClosingTag, j)) ==>
              InsertZone(text, zone) == Some(text[..c] + GeneratedSet(zone) + text[c..])
    ensures forall l :: MatchAt(text, SetClosingTag, l) && (forall j :: l < j ==> !MatchAt(text, SetClosingTag, j)) ==>
              InsertZone(text, zone) == Some(text[..l] + (zone + "\n") + text[l..])
  {
    assert IndexOf(text, ClosingTag) == c;
    forall l | MatchAt(text, SetClosingTag, l) && (forall j :: l < j ==> !MatchAt(text, SetClosingTag, j))
      ensures InsertZone(text, zone) == Some(text[..l] + (zone + "\n") + text[l..])
    {
      var r := LastIndexOf(text, SetClosingTag);
      assert r != -1;
      assert !(r < l) && !(l < r);
    }
  }

  /** An occurrence that ends before the insertion point, or starts at or after it, survives the insertion
      (shifted by the inserted length in the second case). */
  lemma InsertKeeps(s: string, i: nat, x: string, pat: string, j: nat)
    requires i <= |s| && MatchAt(s, pat, j)
    ensures j + |pat| <= i ==> MatchAt(Insert(s, i, x), pat, j)
    ensures i <= j ==> MatchAt(Insert(s, i, x), pat, j + |x|)
  {
    var r := Insert(s, i, x);
    if j + |pat| <= i {
      assert r[j..j + |pat|] == r[..i][j..j + |pat|] == s[..i][j..j + |pat|];
    }
    if i <= j {
      assert r[j + |x|..j + |x| + |pat|] == r[i + |x|..][j - i..j - i + |pat|] == s[i..][j - i..j - i + |pat|];
    }
  }

  /** A `</floorconstraint>` never starts strictly inside a `</constraints>`: the only `<` of the latter is
      its first character. */
  lemma TagsApart(s: string, c: int, l: int)
    requires MatchAt(s, ClosingTag, c) && MatchAt(s, SetClosingTag, l)
    ensures l <= c || c + |ClosingTag| <= l
  {
    forall k | c < k < c + |ClosingTag|
      ensures s[k] != '<'
    {
      assert s[k] == s[c..c + |ClosingTag|][k - c];
    }
    assert s[l] == s[l..l + |SetClosingTag|][0];
  }

  /** After an insertion the file still has its `</constraints>` and now has a `</floorconstraint>`: the
      next zone goes into the set, and a second GENERATED_SET is never written. */
  lemma InsertZoneKeepsTags(text: string, zone: string)
    requires InsertZone(text, zone).Some?
    ensures IndexOf(InsertZone(text, zone).value, ClosingTag) != -1
    ensures LastIndexOf(InsertZone(text, zone).value, SetClosingTag) != -1
  {
    var c := IndexOf(text, ClosingTag);
    var l := LastIndexOf(text, SetClosingTag);
    if l == -1 {
      GeneratedKeepsTags(text, zone, c);
    } else {
      InSetKeepsTags(text, zone, c, l);
    }
  }

  /** What is inserted can be found at the insertion point. */
  lemma InsertedSlice(s: string, i: nat, x: string, a: nat, b: nat)
    requires i <= |s| && a <= b <= |x|
    ensures Insert(s, i, x)[i + a..i + b] == x[a..b]
  {
    var r := Insert(s, i, x);
    assert r[i + a..i + b] == r[i..i + |x|][a..b];
  }

  /** The generated set holds the zone right after its opening, then a `</floorconstraint>`. */
  lemma GeneratedSetParts(zone: string)
    ensures var g, k := GeneratedSet(zone), |SetOpening| + |zone|;
            k + 1 + |SetClosingTag| <= |g| && g[|SetOpening|..k] == zone && g[k + 1..k + 1 + |SetClosingTag|] == SetClosingTag
  {
    var g := GeneratedSet(zone);
    var k := |SetOpening| + |zone|;
    assert g[k + 1..k + 1 + |SetClosingTag|] == (SetOpening + zone + "\n" + SetClosingTag)[k + 1..];
    assert g[|SetOpening|..k] == (SetOpening + zone)[|SetOpening|..];
  }

  lemma GeneratedKeepsTags(text: string, zone: string, c: nat)
    requires MatchAt(text, ClosingTag, c)
    ensures var r := Insert(text, c, GeneratedSet(zone));
            MatchAt(r, ClosingTag, c + |GeneratedSet(zone)|) && MatchAt(r, SetClosingTag, c + |SetOpening| + |zone| + 1) &&
            MatchAt(r, zone, c + |SetOpening|)
  {
    var g := GeneratedSet(zone);
    var k := |SetOpening| + |zone| + 1;
    InsertKeeps(text, c, g, ClosingTag, c);
    GeneratedSetParts(zone);
    InsertedSlice(text, c, g, k, k + |SetClosingTag|);
    InsertedSlice(text, c, g, |SetOpening|, |SetOpening| + |zone|);
  }

  lemma InSetKeepsTags(text: string, zone: string, c: nat, l: nat)
    requires MatchAt(text, ClosingTag, c) && MatchAt(text, SetClosingTag, l)
    ensures var r := Insert(text, l, zone + "\n");
            (MatchAt(r, ClosingTag, c) || MatchAt(r, ClosingTag, c + |zone| + 1)) && MatchAt(r, SetClosingTag, l + |zone| + 1) &&
            MatchAt(r, zone, l)
  {
    TagsApart(text, c, l);
    InsertedSlice(text, l, zone + "\n", 0, |zone|);
    assert (zone + "\n")[0..|zone|] == zone;
    InsertKeeps(text, l, zone + "\n", ClosingTag, c);
    InsertKeeps(text, l, zone + "\n", SetClosingTag, l);
  }

  /** The zone's text sits in the new file, right at the insertion point or after the set's opening. */
  lemma InsertZoneHoldsZone(text: string, zone: string)
    requires InsertZone(text, zone).Some?
    ensures exists k :: MatchAt(InsertZone(text, zone).value, zone, k)
  {
    var c := IndexOf(text, ClosingTag);
    var l := LastIndexOf(text, SetClosingTag);
    if l == -1 {
      GeneratedKeepsTags(text, zone, c);
    } else {
      InSetKeepsTags(text, zone, c, l);
    }
  }

  class ConstraintFileEditor {
    /** The text of the editor box. */
    var Text: string
    /** How many times `ContentsModified` was raised. */
    var Modifications: nat

    constructor(text: string)
      ensures Text == text && Modifications == 0
    {
      Text := text;
      Modifications := 0;
    }

    /** `NewZoneBtn_Click`, given what the dialog returned and the element it wrote: the zone inserted and
        `ContentsModified` raised when the dialog was accepted and the file has a `</constraints>`; the
        message shown and nothing changed when it has none; nothing at all when the dialog was not accepted. */
    method NewZoneBtnClick(ret: Option<bool>, zoneText: string) returns (message: Option<string>)
      modifies this
      ensures ret != Some(true) ==> Text == old(Text) && Modifications == old(Modifications) && message == None
      ensures ret == Some(true) && InsertZone(old(Text), zoneText).None? ==>
                Text == old(Text) && Modifications == old(Modifications) && message == Some("Invalid file structure.")
      ensures ret == Some(true) && InsertZone(old(Text), zoneText).Some? ==>
                Text == InsertZone(old(Text), zoneText).value && Modifications == old(Modifications) + 1 && message == None
    {
      message := None;
      if ret.Some? && ret.value {
        var closingTag := IndexOf(Text, ClosingTag);
        if closingTag == -1 {
          message := Some("Invalid file structure.");
        } else {
          var lastSetClosingTagIndex := LastIndexOf(Text, SetClosingTag);
          if lastSetClosingTagIndex == -1 {
            Text := Insert(Text, closingTag, GeneratedSet(zoneText));
          } else {
            Text := Insert(Text, lastSetClosingTagIndex, zoneText + "\n");
          }
          Modifications := Modifications + 1;
        }
      }
    }
  }
}
