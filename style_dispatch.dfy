/** StyleDispatch: how the demo's document view models carry a theme's
    GlobalStyles onto the editor's brush resources. Each style's TypeName picks
    the resource slots it recolours and which of its colours goes to each; a
    slot is recoloured only if it holds a SolidColorBrush and the colour is not
    null. */
module StyleDispatch {
  import opened Wrappers
  import opened Errors
  import opened HighlightingTheme

  /** The editor's brush resource keys (TextEditLib.Themes.ResourceKeys). */
  datatype Slot =
    | EditorBackground
    | EditorForeground
    | EditorCurrentLineBackgroundBrushKey
    | EditorCurrentLineBorderBrushKey
    | EditorLineNumbersForeground
    | EditorSelectionBrush
    | EditorSelectionBorder
    | EditorLinkTextBackgroundBrush
    | EditorLinkTextForegroundBrush
    | EditorNonPrintableCharacterBrush

  /** Which of a GlobalStyle's colours a slot receives. */
  datatype ColorRole = Foreground | Background | Border

  /** What the application's resource dictionary holds under a key: a
      SolidColorBrush, or any other kind of resource. A key that is absent from
      the map holds null. */
  datatype Resource = SolidColorBrush(color: Color) | OtherResource

  type Resources = map<Slot, Resource>

  /** The sentence OnAppThemeChanged passes with an unsupported style. */
  const UnsupportedStyleMessage := "GlobalStyle named '{0}' is not supported."

  /** The switch over TypeName: the slots a style recolours, in order, each
      with the colour it takes; null for a TypeName the switch does not know. */
  function Targets(typeName: Option<string>): (r: Option<seq<(Slot, ColorRole)>>)
    ensures r.Some? ==> typeName.Some? && |r.value| >= 1
    ensures r.Some? ==> forall i :: 0 <= i < |r.value| ==> SlotOwner(r.value[i].0) == typeName.value
  {
    if typeName == Some("DefaultStyle") then Some([(EditorBackground, Background), (EditorForeground, Foreground)])
    else if typeName == Some("CurrentLineBackground") then
      Some([(EditorCurrentLineBackgroundBrushKey, Background), (EditorCurrentLineBorderBrushKey, Border)])
    else if typeName == Some("LineNumbersForeground") then Some([(EditorLineNumbersForeground, Foreground)])
    else if typeName == Some("Selection") then Some([(EditorSelectionBrush, Background), (EditorSelectionBorder, Border)])
    else if typeName == Some("Hyperlink") then
      Some([(EditorLinkTextBackgroundBrush, Background), (EditorLinkTextForegroundBrush, Foreground)])
    else if typeName == Some("NonPrintableCharacter") then Some([(EditorNonPrintableCharacterBrush, Foreground)])
    else None
  }

  /** The style type that owns a slot. */
  function SlotOwner(slot: Slot): string
  {
    match slot
    case EditorBackground | EditorForeground => "DefaultStyle"
    case EditorCurrentLineBackgroundBrushKey | EditorCurrentLineBorderBrushKey => "CurrentLineBackground"
    case EditorLineNumbersForeground => "LineNumbersForeground"
    case EditorSelectionBrush | EditorSelectionBorder => "Selection"
    case EditorLinkTextBackgroundBrush | EditorLinkTextForegroundBrush => "Hyperlink"
    case EditorNonPrintableCharacterBrush => "NonPrintableCharacter"
  }

  /** Exactly six type names are supported, every slot belongs to exactly one
      of them, and no style writes a slot twice. */
  lemma TargetsPartitionSlots(typeName: Option<string>, slot: Slot)
    ensures Targets(typeName).Some? <==>
      typeName.Some? && typeName.value in {"DefaultStyle", "CurrentLineBackground", "LineNumbersForeground",
                                           "Selection", "Hyperlink", "NonPrintableCharacter"}
    ensures typeName.Some? && Targets(typeName).Some? ==>
      ((exists i :: 0 <= i < |Targets(typeName).value| && Targets(typeName).value[i].0 == slot) <==>
         typeName.value == SlotOwner(slot))
    ensures Targets(Some(SlotOwner(slot))).Some?
    ensures Targets(typeName).Some? ==>
      forall i, j :: 0 <= i < j < |Targets(typeName).value| ==> Targets(typeName).value[i].0 != Targets(typeName).value[j].0
  {
    var t := Targets(typeName);
    if t.Some? && typeName.Some? && typeName.value == SlotOwner(slot) {
      match slot
      case EditorBackground | EditorCurrentLineBackgroundBrushKey | EditorLineNumbersForeground
         | EditorSelectionBrush | EditorLinkTextBackgroundBrush | EditorNonPrintableCharacterBrush =>
        assert t.value[0].0 == slot;
      case EditorForeground | EditorCurrentLineBorderBrushKey | EditorSelectionBorder | EditorLinkTextForegroundBrush =>
        assert t.value[1].0 == slot;
    }
  }

  /** The colour of `style` a slot of the given role receives. */
  function RoleColor(style: GlobalStyleValue, role: ColorRole): Option<Color>
  {
    match role
    case Foreground => style.foregroundColor
    case Background => style.backgroundColor
    case Border => style.borderColor
  }

  /** One ApplyToDynamicResource call: a slot and the colour offered to it. */
  datatype Write = Write(slot: Slot, color: Option<Color>)

  /** The calls one style makes, or the ArgumentOutOfRangeException a style of
      unknown TypeName raises. */
  function StyleWrites(style: GlobalStyleValue): (r: Result<seq<Write>, Error>)
    ensures Targets(style.typeName).None? <==> r.Failure?
    ensures r.Failure? ==> r.error == ArgumentOutOfRange(UnsupportedStyleMessage, style.typeName)
  {
    match Targets(style.typeName)
    case None => Failure(ArgumentOutOfRange(UnsupportedStyleMessage, style.typeName))
    case Some(t) => Success(seq(|t|, i requires 0 <= i < |t| => Write(t[i].0, RoleColor(style, t[i].1))))
  }

  /** ApplyToDynamicResource on the resource dictionary, as a value. */
  function Apply(res: Resources, w: Write): Resources
  {
    if w.slot !in res || w.color.None? then res
    else if res[w.slot].SolidColorBrush? then res[w.slot := SolidColorBrush(w.color.value)]
    else res
  }

  /** A run of ApplyToDynamicResource calls, in order. */
  function ApplyWrites(res: Resources, ws: seq<Write>): Resources
    decreases |ws|
  {
    if |ws| == 0 then res else Apply(ApplyWrites(res, ws[..|ws| - 1]), ws[|ws| - 1])
  }

  /** The last non-null colour a run of calls offers to `slot`. */
  function LastColor(ws: seq<Write>, slot: Slot): Option<Color>
    decreases |ws|
  {
    if |ws| == 0 then None
    else if ws[|ws| - 1].slot == slot && ws[|ws| - 1].color.Some? then ws[|ws| - 1].color
    else LastColor(ws[..|ws| - 1], slot)
  }

  lemma ApplyWritesSnoc(res: Resources, ws: seq<Write>, w: Write)
    ensures ApplyWrites(res, ws + [w]) == Apply(ApplyWrites(res, ws), w)
  {
    assert (ws + [w])[..|ws|] == ws;
  }

  /** What a run of calls leaves in each slot: the set of occupied keys does not
      change; a SolidColorBrush slot ends with the last non-null colour offered
      to it, or is left alone when none was; any other slot is left alone. */
  lemma {:induction false} ApplyWritesSlot(res: Resources, ws: seq<Write>, slot: Slot)
    ensures ApplyWrites(res, ws).Keys == res.Keys
    ensures slot in res ==>
      ApplyWrites(res, ws)[slot] ==
        if res[slot].SolidColorBrush? && LastColor(ws, slot).Some? then SolidColorBrush(LastColor(ws, slot).value)
        else res[slot]
    decreases |ws|
  {
    if |ws| > 0 {
      ApplyWritesSlot(res, ws[..|ws| - 1], slot);
      ApplyWritesSlot(res, ws[..|ws| - 1], ws[|ws| - 1].slot);
    }
  }

  /** Re-applying the same run of calls changes nothing more. */
  lemma ApplyWritesIdempotent(res: Resources, ws: seq<Write>)
    ensures ApplyWrites(ApplyWrites(res, ws), ws) == ApplyWrites(res, ws)
  {
    var once := ApplyWrites(res, ws);
    ApplyWritesSlot(res, ws, EditorBackground);
    ApplyWritesSlot(once, ws, EditorBackground);
    forall slot | slot in res
      ensures ApplyWrites(once, ws)[slot] == once[slot]
    {
      ApplyWritesSlot(res, ws, slot);
      ApplyWritesSlot(once, ws, slot);
    }
  }

  /** What each style of a theme does, in order. */
  function StyleOutcomes(styles: seq<GlobalStyleValue>): (os: seq<Result<seq<Write>, Error>>)
    ensures |os| == |styles| && forall i :: 0 <= i < |styles| ==> os[i] == StyleWrites(styles[i])
  {
    seq(|styles|, i requires 0 <= i < |styles| => StyleWrites(styles[i]))
  }

  /** The calls a run of styles makes, in order, up to the first style that
      raises, and that style's exception; later styles are not reached. */
  function Plan(os: seq<Result<seq<Write>, Error>>): (seq<Write>, Option<Error>)
    decreases |os|
  {
    if |os| == 0 then ([], None)
    else
      var p := Plan(os[..|os| - 1]);
      if p.1.Some? then p
      else match os[|os| - 1]
        case Failure(e) => (p.0, Some(e))
        case Success(ws) => (p.0 + ws, None)
  }

  /** Once a prefix has raised, the rest add nothing. */
  lemma {:induction false} PlanStops(os: seq<Result<seq<Write>, Error>>, k: nat)
    requires k <= |os| && Plan(os[..k]).1.Some?
    ensures Plan(os) == Plan(os[..k])
    decreases |os| - k
  {
    if k < |os| {
      assert os[..k + 1][..k] == os[..k];
      PlanStops(os, k + 1);
    } else {
      assert os[..k] == os;
    }
  }

  /** One more outcome after an exception-free prefix: its calls are appended,
      or its exception ends the run. */
  lemma PlanStep(os: seq<Result<seq<Write>, Error>>, k: nat)
    requires k < |os| && Plan(os[..k]).1.None?
    ensures os[k].Failure? ==> Plan(os[..k + 1]) == (Plan(os[..k]).0, Some(os[k].error))
    ensures os[k].Success? ==> Plan(os[..k + 1]) == (Plan(os[..k]).0 + os[k].value, None)
  {
    assert os[..k + 1][..k] == os[..k];
  }

  /** When no outcome raises, nothing is raised. */
  lemma {:induction false} PlanAllSucceed(os: seq<Result<seq<Write>, Error>>)
    requires forall j :: 0 <= j < |os| ==> os[j].Success?
    ensures Plan(os).1.None?
    decreases |os|
  {
    if |os| > 0 {
      PlanAllSucceed(os[..|os| - 1]);
    }
  }

  /** The first style of unknown TypeName raises ArgumentOutOfRangeException
      naming it, the styles before it stay applied, and later ones are not
      reached. */
  lemma FirstUnsupportedStyleRaises(styles: seq<GlobalStyleValue>, k: nat)
    requires k < |styles| && Targets(styles[k].typeName).None?
    requires forall j :: 0 <= j < k ==> Targets(styles[j].typeName).Some?
    ensures Plan(StyleOutcomes(styles)).1 == Some(ArgumentOutOfRange(UnsupportedStyleMessage, styles[k].typeName))
    ensures Plan(StyleOutcomes(styles)).0 == Plan(StyleOutcomes(styles[..k])).0
  {
    var os := StyleOutcomes(styles);
    assert os[..k] == StyleOutcomes(styles[..k]);
    PlanAllSucceed(os[..k]);
    PlanStep(os, k);
    PlanStops(os, k + 1);
  }

  /** When every TypeName is supported no exception is raised. */
  lemma StylesSupported(styles: seq<GlobalStyleValue>)
    requires forall j :: 0 <= j < |styles| ==> Targets(styles[j].typeName).Some?
    ensures Plan(StyleOutcomes(styles)).1.None?
  {
    PlanAllSucceed(StyleOutcomes(styles));
  }

  /** Application.Current.Resources, restricted to the editor's brush keys. */
  class AppResources {
    var slots: Resources

    constructor (slots: Resources)
      ensures this.slots == slots
    {
      this.slots := slots;
    }

    /** ApplyToDynamicResource: nothing for a null slot or a null colour; a
        SolidColorBrush slot gets a new brush of the colour; any other resource
        is left as it is. */
    method ApplyToDynamicResource(key: Slot, newColor: Option<Color>)
      modifies this
      ensures slots == Apply(old(slots), Write(key, newColor))
      ensures slots.Keys == old(slots).Keys
      ensures forall s :: s in slots && s != key ==> slots[s] == old(slots)[s]
      ensures key in slots && old(slots)[key].SolidColorBrush? && newColor.Some? ==> slots[key] == SolidColorBrush(newColor.value)
      ensures key in slots && (old(slots)[key].OtherResource? || newColor.None?) ==> slots[key] == old(slots)[key]
    {
      if key !in slots || newColor.None? {
        return;
      }
      if slots[key].SolidColorBrush? {
        slots := slots[key := SolidColorBrush(newColor.value)];
      }
    }

    /** The foreach over a theme's GlobalStyles in OnAppThemeChanged: each
        style recolours its slots; a style of unknown TypeName throws, leaving
        the earlier styles applied. */
    method ApplyGlobalStyles(styles: seq<GlobalStyleValue>) returns (r: Outcome<Error>)
      modifies this
      ensures slots == ApplyWrites(old(slots), Plan(StyleOutcomes(styles)).0)
      ensures r == if Plan(StyleOutcomes(styles)).1.Some? then Fail(Plan(StyleOutcomes(styles)).1.value) else Pass
    {
      ghost var os := StyleOutcomes(styles);
      var i := 0;
      while i < |styles|
        invariant 0 <= i <= |styles|
        invariant Plan(os[..i]).1.None?
        invariant slots == ApplyWrites(old(slots), Plan(os[..i]).0)
      {
        var item := styles[i];
        assert os[i] == StyleWrites(item);
        PlanStep(os, i);
        var supported := ApplyStyle(item, old(slots), Plan(os[..i]).0);
        if !supported {
          PlanStops(os, i + 1);
          return Fail(ArgumentOutOfRange(UnsupportedStyleMessage, item.typeName));
        }
        i := i + 1;
      }
      assert os[..i] == os;
      r := Pass;
    }

    /** The switch over one style's TypeName: a known TypeName makes the
        style's calls; an unknown one makes none and reports it. */
    method ApplyStyle(item: GlobalStyleValue, ghost origin: Resources, ghost before: seq<Write>) returns (supported: bool)
      requires slots == ApplyWrites(origin, before)
      modifies this
      ensures supported == StyleWrites(item).Success?
      ensures supported ==> slots == ApplyWrites(origin, before + StyleWrites(item).value)
      ensures !supported ==> slots == old(slots)
    {
      ghost var ws := StyleWrites(item);
      var t := item.typeName;
      supported := true;
      if t == Some("DefaultStyle") {
        ApplyPair(EditorBackground, item.backgroundColor, EditorForeground, item.foregroundColor, origin, before);
        assert ws.value == [Write(EditorBackground, item.backgroundColor), Write(EditorForeground, item.foregroundColor)];
      } else if t == Some("CurrentLineBackground") {
        ApplyPair(EditorCurrentLineBackgroundBrushKey, item.backgroundColor,
                  EditorCurrentLineBorderBrushKey, item.borderColor, origin, before);
        assert ws.value == [Write(EditorCurrentLineBackgroundBrushKey, item.backgroundColor),
                            Write(EditorCurrentLineBorderBrushKey, item.borderColor)];
      } else if t == Some("LineNumbersForeground") {
        ApplyToDynamicResource(EditorLineNumbersForeground, item.foregroundColor);
        ApplyWritesSnoc(origin, before, Write(EditorLineNumbersForeground, item.foregroundColor));
        assert ws.value == [Write(EditorLineNumbersForeground, item.foregroundColor)];
      } else if t == Some("Selection") {
        ApplyPair(EditorSelectionBrush, item.backgroundColor, EditorSelectionBorder, item.borderColor, origin, before);
        assert ws.value == [Write(EditorSelectionBrush, item.backgroundColor), Write(EditorSelectionBorder, item.borderColor)];
      } else if t == Some("Hyperlink") {
        ApplyPair(EditorLinkTextBackgroundBrush, item.backgroundColor,
                  EditorLinkTextForegroundBrush, item.foregroundColor, origin, before);
        assert ws.value == [Write(EditorLinkTextBackgroundBrush, item.backgroundColor),
                            Write(EditorLinkTextForegroundBrush, item.foregroundColor)];
      } else if t == Some("NonPrintableCharacter") {
        ApplyToDynamicResource(EditorNonPrintableCharacterBrush, item.foregroundColor);
        ApplyWritesSnoc(origin, before, Write(EditorNonPrintableCharacterBrush, item.foregroundColor));
        assert ws.value == [Write(EditorNonPrintableCharacterBrush, item.foregroundColor)];
      } else {
        supported := false;
      }
    }

    /** The two ApplyToDynamicResource calls of a two-slot case. */
    method ApplyPair(k1: Slot, c1: Option<Color>, k2: Slot, c2: Option<Color>, ghost origin: Resources, ghost before: seq<Write>)
      requires slots == ApplyWrites(origin, before)
      modifies this
      ensures slots == ApplyWrites(origin, before + [Write(k1, c1), Write(k2, c2)])
    {
      ApplyToDynamicResource(k1, c1);
      ApplyToDynamicResource(k2, c2);
      assert before + [Write(k1, c1), Write(k2, c2)] == (before + [Write(k1, c1)]) + [Write(k2, c2)];
      ApplyWritesSnoc(origin, before, Write(k1, c1));
      ApplyWritesSnoc(origin, before + [Write(k1, c1)], Write(k2, c2));
    }
  }
}
