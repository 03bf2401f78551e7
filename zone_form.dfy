/** The zone dialog of the editor (EditorV2/Editor/NewZoneForm.xaml.cs): the OK button checks the form and
    writes the `<zone>` element of a constraint file from its text boxes. */
module ZoneForms {
  import opened Wrappers
  import opened Seqs

  /** The text boxes of the dialog, and the content of the type combo box's selected item (None when
      nothing is selected). */
  datatype FormFields = FormFields(
    id: string,
    widthMin: string, widthMax: string,
    heightMin: string, heightMax: string,
    amountMin: string, amountMax: string,
    constraintSet: string,
    selectedType: Option<string>)

  /** Every box the OK button insists on is filled: the id and the six range bounds. */
  predicate Complete(f: FormFields)
  {
    f.id != "" && f.widthMin != "" && f.widthMax != "" && f.heightMin != "" && f.heightMax != ""
      && f.amountMin != "" && f.amountMax != ""
  }

  const MissingValues := "You must specify values for the id, width, height and amount ranges."
  const MissingType := "You must select the type for this zone."

  // ---------------------------------------------------------------------------------------------
  // The text written

  /** A range bound: a single `<value>` when both bounds are the same text, a `<range>` otherwise. */
  function Bound(min: string, max: string): string
  {
    if min == max then "<value>" + min + "</value>" else "<range min=\"" + min + "\" max=\"" + max + "\"/>"
  }

  /** The opening of the element, up to the type attribute. */
  function Head(id: string, zoneType: string): string
  {
    "<zone id=\"" + id + "\" type=\"" + zoneType + "\""
  }

  /** The opening of the `subdivset` attribute, up to its value. */
  const SubdivOpen := " subdivset=\""

  /** The `subdivset` attribute, present only when the constraint set box is filled. */
  function SubdivAttr(constraintSet: string): string
  {
    if constraintSet != "" then SubdivOpen + constraintSet + "\"" else ""
  }

  /** The element the dialog writes, piece by piece in the order the OK button appends them, with the
      amount written from the amount boxes. */
  function ZoneTextOf(f: FormFields): string
    requires f.selectedType.Some?
  {
    Head(f.id, f.selectedType.value) + SubdivAttr(f.constraintSet) + ">\n<width>" + Bound(f.widthMin, f.widthMax)
      + "</width>\n<height>" + Bound(f.heightMin, f.heightMax) + "</height>\n<amount>"
      + Bound(f.amountMin, f.amountMax) + "</amount>\n</zone>"
  }

  /** The amount as the OK button writes it: its single-value case takes the text of the height's minimum. */
  function AmountAsWritten(f: FormFields): string
  {
    if f.amountMin == f.amountMax then "<value>" + f.heightMin + "</value>"
    else "<range min=\"" + f.amountMin + "\" max=\"" + f.amountMax + "\"/>"
  }

  /** The element as the OK button writes it. */
  function ZoneTextAsWritten(f: FormFields): string
    requires f.selectedType.Some?
  {
    Head(f.id, f.selectedType.value) + SubdivAttr(f.constraintSet) + ">\n<width>" + Bound(f.widthMin, f.widthMax)
      + "</width>\n<height>" + Bound(f.heightMin, f.heightMax) + "</height>\n<amount>"
      + AmountAsWritten(f) + "</amount>\n</zone>"
  }

  // ---------------------------------------------------------------------------------------------
  // Reading the text back

  /** Text that ends neither an attribute value nor an element's content. */
  predicate Plain(s: string)
  {
    forall i :: 0 <= i < |s| ==> s[i] != '"' && s[i] != '<'
  }

  /** The rest of `s` after the literal `lit`, if `s` starts with it. */
  function Expect(lit: string, s: string): (r: Option<string>)
    ensures r.Some? <==> |lit| <= |s| && s[..|lit|] == lit
    ensures r.Some? ==> s == lit + r.value
  {
    if |lit| <= |s| && s[..|lit|] == lit then Some(s[|lit|..]) else None
  }

  /** The text of `s` up to the first `stop`, and the rest from that `stop` on. */
  function Until(s: string, stop: char): (r: Option<(string, string)>)
    ensures r.Some? ==> s == r.value.0 + r.value.1 && |r.value.1| > 0 && r.value.1[0] == stop
    ensures r.Some? ==> forall i :: 0 <= i < |r.value.0| ==> r.value.0[i] != stop
  {
    if |s| == 0 then None
    else if s[0] == stop then Some(([], s))
    else
      var r := Until(s[1..], stop);
      if r.None? then None else Some(([s[0]] + r.value.0, r.value.1))
  }

  /** A bound read back: its minimum, its maximum, and the text after it. */
  function ReadBound(s: string): Option<(string, string, string)>
  {
    match Expect("<value>", s)
    case Some(r) =>
      (match Until(r, '<')
       case Some((v, r2)) =>
         (match Expect("</value>", r2)
          case Some(r3) => Some((v, v, r3))
          case None => None)
       case None => None)
    case None =>
      match Expect("<range min=\"", s)
      case None => None
      case Some(r) =>
        match Until(r, '"')
        case None => None
        case Some((min, r2)) =>
          match Expect("\" max=\"", r2)
          case None => None
          case Some(r3) =>
            match Until(r3, '"')
            case None => None
            case Some((max, r4)) =>
              match Expect("\"/>", r4)
              case None => None
              case Some(r5) => Some((min, max, r5))
  }

  /** The opening read back: the id, the type, and the text after the type's closing quote. */
  function ReadHead(s: string): Option<(string, string, string)>
  {
    match Expect("<zone id=\"", s)
    case None => None
    case Some(r) =>
      match Until(r, '"')
      case None => None
      case Some((id, r2)) =>
        match Expect("\" type=\"", r2)
        case None => None
        case Some(r3) =>
          match Until(r3, '"')
          case None => None
          case Some((t, r4)) =>
            match Expect("\"", r4)
            case None => None
            case Some(r5) => Some((id, t, r5))
  }

  /** The optional `subdivset` attribute read back: its value ("" when absent) and the text after it. */
  function ReadSubdiv(s: string): (string, string)
  {
    match Expect(SubdivOpen, s)
    case None => ("", s)
    case Some(r) =>
      match Until(r, '"')
      case None => ("", s)
      case Some((cs, r2)) =>
        match Expect("\"", r2)
        case None => ("", s)
        case Some(r3) => (cs, r3)
  }

  /** What a `<zone>` element read back holds. */
  datatype ZoneEntry = ZoneEntry(id: string, zoneType: string, subdivSet: string,
                                 width: (string, string), height: (string, string), amount: (string, string))

  /** A `<zone>` element as the dialog lays it out, read back. */
  function ReadZone(s: string): Option<ZoneEntry>
  {
    match ReadHead(s)
    case None => None
    case Some((id, t, r1)) =>
      var (cs, r2) := ReadSubdiv(r1);
      match Expect(">\n<width>", r2)
      case None => None
      case Some(r3) =>
        match ReadBound(r3)
        case None => None
        case Some((wMin, wMax, r4)) =>
          match Expect("</width>\n<height>", r4)
          case None => None
          case Some(r5) =>
            match ReadBound(r5)
            case None => None
            case Some((hMin, hMax, r6)) =>
              match Expect("</height>\n<amount>", r6)
              case None => None
              case Some(r7) =>
                match ReadBound(r7)
                case None => None
                case Some((aMin, aMax, r8)) =>
                  if r8 == "</amount>\n</zone>" then Some(ZoneEntry(id, t, cs, (wMin, wMax), (hMin, hMax), (aMin, aMax)))
                  else None
  }

  lemma ExpectLit(lit: string, rest: string)
    ensures Expect(lit, lit + rest) == Some(rest)
  {
    assert (lit + rest)[..|lit|] == lit;
    assert (lit + rest)[|lit|..] == rest;
  }

  lemma {:induction false} UntilStop(x: string, rest: string, stop: char)
    requires forall i :: 0 <= i < |x| ==> x[i] != stop
    requires |rest| > 0 && rest[0] == stop
    ensures Until(x + rest, stop) == Some((x, rest))
  {
    if |x| > 0 {
      assert (x + rest)[1..] == x[1..] + rest;
      UntilStop(x[1..], rest, stop);
      assert [x[0]] + x[1..] == x;
    } else {
      assert x + rest == rest;
    }
  }

  /** A bound is read back as the two texts it was written from, whichever form it took. */
  lemma ReadBoundOf(min: string, max: string, rest: string)
    requires Plain(min) && Plain(max)
    ensures ReadBound(Bound(min, max) + rest) == Some((min, max, rest))
  {
    if min == max {
      ReadValueOf(min, rest);
    } else {
      ReadRangeOf(min, max, rest);
    }
  }

  /** A value bound read back gives the value text as both minimum and maximum. */
  lemma ReadValueOf(v: string, rest: string)
    requires Plain(v)
    ensures ReadBound("<value>" + v + "</value>" + rest) == Some((v, v, rest))
  {
    var tail := "</value>" + rest;
    AppendAssoc("<value>" + v, "</value>", rest);
    AppendAssoc("<value>", v, tail);
    ExpectLit("<value>", v + tail);
    UntilStop(v, tail, '<');
    ExpectLit("</value>", rest);
  }

  /** A range bound read back gives its two texts. */
  lemma ReadRangeOf(min: string, max: string, rest: string)
    requires Plain(min) && Plain(max) && min != max
    ensures ReadBound("<range min=\"" + min + "\" max=\"" + max + "\"/>" + rest) == Some((min, max, rest))
  {
    var tail2 := "\"/>" + rest;
    var tail1 := "\" max=\"" + (max + tail2);
    AppendAssoc("<range min=\"" + min + "\" max=\"" + max, "\"/>", rest);
    AppendAssoc("<range min=\"" + min + "\" max=\"", max, tail2);
    AppendAssoc("<range min=\"" + min, "\" max=\"", max + tail2);
    AppendAssoc("<range min=\"", min, tail1);
    assert Expect("<value>", "<range min=\"" + (min + tail1)) == None by {
      assert ("<range min=\"" + (min + tail1))[1] == 'r';
    }
    ExpectLit("<range min=\"", min + tail1);
    UntilStop(min, tail1, '"');
    ExpectLit("\" max=\"", max + tail2);
    UntilStop(max, tail2, '"');
    ExpectLit("\"/>", rest);
  }

  lemma ReadHeadOf(id: string, t: string, rest: string)
    requires Plain(id) && Plain(t)
    ensures ReadHead(Head(id, t) + rest) == Some((id, t, rest))
  {
    var tail3 := "\"" + rest;
    var tail2 := "\" type=\"" + (t + tail3);
    assert Head(id, t) + rest == "<zone id=\"" + (id + tail2);
    ExpectLit("<zone id=\"", id + tail2);
    UntilStop(id, tail2, '"');
    ExpectLit("\" type=\"", t + tail3);
    UntilStop(t, tail3, '"');
    ExpectLit("\"", rest);
  }

  lemma ReadSubdivOf(cs: string, rest: string)
    requires Plain(cs) && |rest| > 0 && rest[0] == '>'
    ensures ReadSubdiv(SubdivAttr(cs) + rest) == (cs, rest)
  {
    if cs != "" {
      var tail := "\"" + rest;
      assert SubdivAttr(cs) + rest == SubdivOpen + (cs + tail);
      ExpectLit(SubdivOpen, cs + tail);
      UntilStop(cs, tail, '"');
      ExpectLit("\"", rest);
    } else {
      assert SubdivAttr(cs) + rest == rest;
      if |SubdivOpen| <= |rest| {
        assert rest[..|SubdivOpen|][0] == '>';
      }
    }
  }

  /** The element after its opening, from the bounds' texts and the amount as written. */
  function Tail(f: FormFields, amount: string): string
  {
    ">\n<width>" + (Bound(f.widthMin, f.widthMax) + ("</width>\n<height>" + (Bound(f.heightMin, f.heightMax)
      + ("</height>\n<amount>" + (amount + "</amount>\n</zone>")))))
  }

  /** The element regrouped as its opening, its `subdivset` attribute and its tail. */
  lemma Regroup(f: FormFields, amount: string)
    requires f.selectedType.Some?
    ensures Head(f.id, f.selectedType.value) + SubdivAttr(f.constraintSet) + ">\n<width>" + Bound(f.widthMin, f.widthMax)
              + "</width>\n<height>" + Bound(f.heightMin, f.heightMax) + "</height>\n<amount>"
              + amount + "</amount>\n</zone>"
            == Head(f.id, f.selectedType.value) + (SubdivAttr(f.constraintSet) + Tail(f, amount))
  {
    var h, s, w, hh := Head(f.id, f.selectedType.value), SubdivAttr(f.constraintSet), Bound(f.widthMin, f.widthMax),
                       Bound(f.heightMin, f.heightMax);
    var t5 := amount + "</amount>\n</zone>";
    var t4 := "</height>\n<amount>" + t5;
    var t3 := hh + t4;
    var t2 := "</width>\n<height>" + t3;
    var t1 := w + t2;
    AppendAssoc(h + s + ">\n<width>" + w + "</width>\n<height>" + hh + "</height>\n<amount>", amount, "</amount>\n</zone>");
    AppendAssoc(h + s + ">\n<width>" + w + "</width>\n<height>" + hh, "</height>\n<amount>", t5);
    AppendAssoc(h + s + ">\n<width>" + w + "</width>\n<height>", hh, t4);
    AppendAssoc(h + s + ">\n<width>" + w, "</width>\n<height>", t3);
    AppendAssoc(h + s + ">\n<width>", w, t2);
    AppendAssoc(h + s, ">\n<width>", t1);
    AppendAssoc(h, s, ">\n<width>" + t1);
  }

  /** The tail read back, after the opening and the attribute. */
  lemma ReadTailOf(f: FormFields, amount: string, aMin: string, aMax: string)
    requires Plain(f.widthMin) && Plain(f.widthMax) && Plain(f.heightMin) && Plain(f.heightMax)
    requires ReadBound(amount + "</amount>\n</zone>") == Some((aMin, aMax, "</amount>\n</zone>"))
    ensures var r3 := Bound(f.widthMin, f.widthMax) + ("</width>\n<height>" + (Bound(f.heightMin, f.heightMax)
              + ("</height>\n<amount>" + (amount + "</amount>\n</zone>"))));
            Expect(">\n<width>", Tail(f, amount)) == Some(r3) &&
            ReadBound(r3) == Some((f.widthMin, f.widthMax, "</width>\n<height>" + (Bound(f.heightMin, f.heightMax)
              + ("</height>\n<amount>" + (amount + "</amount>\n</zone>")))))
    ensures ReadBound(Bound(f.heightMin, f.heightMax) + ("</height>\n<amount>" + (amount + "</amount>\n</zone>")))
              == Some((f.heightMin, f.heightMax, "</height>\n<amount>" + (amount + "</amount>\n</zone>")))
  {
    var t5 := amount + "</amount>\n</zone>";
    var t4 := "</height>\n<amount>" + t5;
    var t2 := "</width>\n<height>" + (Bound(f.heightMin, f.heightMax) + t4);
    ExpectLit(">\n<width>", Bound(f.widthMin, f.widthMax) + t2);
    ReadBoundOf(f.widthMin, f.widthMax, t2);
    ReadBoundOf(f.heightMin, f.heightMax, t4);
  }

  /** The element read back, given what its amount reads back as. */
  lemma ReadZoneWith(f: FormFields, amount: string, aMin: string, aMax: string)
    requires f.selectedType.Some? && Plain(f.id) && Plain(f.selectedType.value) && Plain(f.constraintSet)
    requires Plain(f.widthMin) && Plain(f.widthMax) && Plain(f.heightMin) && Plain(f.heightMax)
    requires ReadBound(amount + "</amount>\n</zone>") == Some((aMin, aMax, "</amount>\n</zone>"))
    ensures ReadZone(Head(f.id, f.selectedType.value) + (SubdivAttr(f.constraintSet) + Tail(f, amount)))
            == Some(ZoneEntry(f.id, f.selectedType.value, f.constraintSet, (f.widthMin, f.widthMax),
                              (f.heightMin, f.heightMax), (aMin, aMax)))
  {
    ReadHeadOf(f.id, f.selectedType.value, SubdivAttr(f.constraintSet) + Tail(f, amount));
    ReadSubdivOf(f.constraintSet, Tail(f, amount));
    ReadTailOf(f, amount, aMin, aMax);
    var t5 := amount + "</amount>\n</zone>";
    ExpectLit("</width>\n<height>", Bound(f.heightMin, f.heightMax) + ("</height>\n<amount>" + t5));
    ExpectLit("</height>\n<amount>", t5);
  }

  /** The fields a filled form writes are read back from its element; the plain-text condition keeps a
      quote or a `<` in a box from ending the value early. */
  lemma ZoneTextRoundTrip(f: FormFields)
    requires f.selectedType.Some? && Plain(f.id) && Plain(f.selectedType.value) && Plain(f.constraintSet)
    requires Plain(f.widthMin) && Plain(f.widthMax) && Plain(f.heightMin) && Plain(f.heightMax)
    requires Plain(f.amountMin) && Plain(f.amountMax)
    ensures ReadZone(ZoneTextOf(f)) == Some(ZoneEntry(f.id, f.selectedType.value, f.constraintSet,
              (f.widthMin, f.widthMax), (f.heightMin, f.heightMax), (f.amountMin, f.amountMax)))
  {
    var amount := Bound(f.amountMin, f.amountMax);
    Regroup(f, amount);
    ReadBoundOf(f.amountMin, f.amountMax, "</amount>\n</zone>");
    ReadZoneWith(f, amount, f.amountMin, f.amountMax);
  }

  /** As written, a single-value amount reads back as the height's minimum, whatever the amount boxes hold. */
  lemma AsWrittenAmountIsHeight(f: FormFields)
    requires f.selectedType.Some? && Plain(f.id) && Plain(f.selectedType.value) && Plain(f.constraintSet)
    requires Plain(f.widthMin) && Plain(f.widthMax) && Plain(f.heightMin) && Plain(f.heightMax)
    requires Plain(f.amountMin) && Plain(f.amountMax) && f.amountMin == f.amountMax
    ensures ReadZone(ZoneTextAsWritten(f)) == Some(ZoneEntry(f.id, f.selectedType.value, f.constraintSet,
              (f.widthMin, f.widthMax), (f.heightMin, f.heightMax), (f.heightMin, f.heightMin)))
  {
    var amount := AmountAsWritten(f);
    Regroup(f, amount);
    ReadBoundOf(f.heightMin, f.heightMin, "</amount>\n</zone>");
    ReadZoneWith(f, amount, f.heightMin, f.heightMin);
  }

  /** The example: height 1 to 3 and an amount of exactly 2 writes an amount of 1. */
  lemma AsWrittenCounterexample()
    ensures var f := FormFields("office", "2", "4", "1", "3", "2", "2", "", Some("Room"));
            ReadZone(ZoneTextAsWritten(f)).Some? && ReadZone(ZoneTextAsWritten(f)).value.amount == ("1", "1")
            && ReadZone(ZoneTextOf(f)).Some? && ReadZone(ZoneTextOf(f)).value.amount == ("2", "2")
  {
    var f := FormFields("office", "2", "4", "1", "3", "2", "2", "", Some("Room"));
    AsWrittenAmountIsHeight(f);
    ZoneTextRoundTrip(f);
  }

  /** The code as written and the intended text differ exactly when the amount is a single value other than
      the height's minimum. */
  lemma AsWrittenDiffers(f: FormFields)
    requires f.selectedType.Some? && Plain(f.id) && Plain(f.selectedType.value) && Plain(f.constraintSet)
    requires Plain(f.widthMin) && Plain(f.widthMax) && Plain(f.heightMin) && Plain(f.heightMax)
    requires Plain(f.amountMin) && Plain(f.amountMax)
    ensures ZoneTextAsWritten(f) != ZoneTextOf(f) <==> f.amountMin == f.amountMax && f.heightMin != f.amountMin
  {
    if f.amountMin == f.amountMax {
      AsWrittenAmountIsHeight(f);
      ZoneTextRoundTrip(f);
    }
  }

  /** The element opens with the id and the type and closes the amount and the zone. */
  lemma ZoneTextEnds(f: FormFields)
    requires f.selectedType.Some?
    ensures var text := ZoneTextOf(f);
            var head := "<zone id=\"" + f.id + "\" type=\"" + f.selectedType.value + "\"";
            |head| <= |text| && text[..|head|] == head &&
            |text| >= 17 && text[|text| - 17..] == "</amount>\n</zone>"
  {
    var head := Head(f.id, f.selectedType.value);
    var amount := Bound(f.amountMin, f.amountMax);
    Regroup(f, amount);
    var text := ZoneTextOf(f);
    assert text[..|head|] == head;
    var pre := head + SubdivAttr(f.constraintSet) + ">\n<width>" + Bound(f.widthMin, f.widthMax)
      + "</width>\n<height>" + Bound(f.heightMin, f.heightMax) + "</height>\n<amount>" + amount;
    assert text == pre + "</amount>\n</zone>";
  }

  /** The element carries a `subdivset` attribute right after the type exactly when the constraint set box
      is filled. */
  lemma ZoneTextSubdiv(f: FormFields)
    requires f.selectedType.Some?
    ensures var text, head := ZoneTextOf(f), Head(f.id, f.selectedType.value);
            |head| + |SubdivOpen| <= |text| && text[|head|..|head| + |SubdivOpen|] == SubdivOpen <==> f.constraintSet != ""
  {
    var amount := Bound(f.amountMin, f.amountMax);
    Regroup(f, amount);
    SubdivAfter(Head(f.id, f.selectedType.value), f.constraintSet, Tail(f, amount));
  }

  lemma SubdivAfter(head: string, cs: string, tail: string)
    requires |tail| > 0 && tail[0] == '>'
    ensures var text := head + (SubdivAttr(cs) + tail);
            |head| + |SubdivOpen| <= |text| && text[|head|..|head| + |SubdivOpen|] == SubdivOpen <==> cs != ""
  {
    var rest := SubdivAttr(cs) + tail;
    var text := head + rest;
    assert text[|head|..] == rest;
    if cs != "" {
      var after := cs + "\"" + tail;
      assert rest == SubdivOpen + after;
      SliceOfAppendLeft(SubdivOpen, after, 0, |SubdivOpen|);
      SliceOfAppendRight(head, rest, 0, |SubdivOpen|);
    } else {
      if |head| + |SubdivOpen| <= |text| {
        assert text[|head|..|head| + |SubdivOpen|][0] == rest[0] == '>';
        assert SubdivOpen[0] == ' ';
      }
    }
  }

  // ---------------------------------------------------------------------------------------------
  // The dialog

  class NewZoneForm {
    /** The element written, null until the OK button succeeds. */
    var ZoneText: Option<string>
    /** The window's `DialogResult`: null while the dialog is open. */
    var DialogResult: Option<bool>

    constructor()
      ensures ZoneText == None && DialogResult == None
    {
      ZoneText := None;
      DialogResult := None;
    }

    /** `OkButton_Click`: with a box empty or no type selected, the message shown and nothing changed;
        otherwise the element written and the dialog accepted. */
    method OkButtonClick(f: FormFields) returns (message: Option<string>)
      modifies this
      ensures !Complete(f) ==>
                message == Some(MissingValues) && ZoneText == old(ZoneText) && DialogResult == old(DialogResult)
      ensures Complete(f) && f.selectedType.None? ==>
                message == Some(MissingType) && ZoneText == old(ZoneText) && DialogResult == old(DialogResult)
      ensures Complete(f) && f.selectedType.Some? ==>
                message == None && ZoneText == Some(ZoneTextOf(f)) && DialogResult == Some(true)
    {
      if !Complete(f) {
        message := Some(MissingValues);
      } else if f.selectedType.None? {
        message := Some(MissingType);
      } else {
        var text := "<zone id=\"" + f.id + "\" type=\"" + f.selectedType.value + "\"";
        if f.constraintSet != "" {
          text := text + (SubdivOpen + f.constraintSet + "\"");
        }
        assert text == Head(f.id, f.selectedType.value) + SubdivAttr(f.constraintSet);
        text := text + ">\n<width>";
        if f.widthMin == f.widthMax {
          text := text + ("<value>" + f.widthMin + "</value>");
        } else {
          text := text + ("<range min=\"" + f.widthMin + "\" max=\"" + f.widthMax + "\"/>");
        }
        text := text + "</width>\n<height>";
        if f.heightMin == f.heightMax {
          text := text + ("<value>" + f.heightMin + "</value>");
        } else {
          text := text + ("<range min=\"" + f.heightMin + "\" max=\"" + f.heightMax + "\"/>");
        }
        text := text + "</height>\n<amount>";
        if f.amountMin == f.amountMax {
          text := text + ("<value>" + f.amountMin + "</value>");
        } else {
          text := text + ("<range min=\"" + f.amountMin + "\" max=\"" + f.amountMax + "\"/>");
        }
        text := text + "</amount>\n</zone>";
        ZoneText := Some(text);
        DialogResult := Some(true);
        message := None;
      }
    }

    /** `CancelButton_Click`: the dialog refused, the element untouched. */
    method CancelButtonClick()
      modifies this
      ensures DialogResult == Some(false) && ZoneText == old(ZoneText)
    {
      DialogResult := Some(false);
    }
  }
}
