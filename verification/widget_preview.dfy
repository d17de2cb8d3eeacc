/**
  What the two settings screens share: the animated widget preview, the
  design dialog's index mapping, and the bits of `onResume` that only
  decide what to show.
 */
module WidgetPreview {
  import opened JavaText
  import opened Platform
  import opened IntArith
  import BatteryWidget

  /** `MAPPING`: dialog entry -> stored design, and stored design -> dialog entry. */
  const Mapping: seq<int> := [0, 3, 2, 1]

  /** `AppWidgetManager.EXTRA_APPWIDGET_ID` and `INVALID_APPWIDGET_ID`. */
  const ExtraAppWidgetId := "appWidgetId"
  const InvalidAppWidgetId: Int32 := 0

  /** MAPPING permutes the four dialog entries and undoes itself. */
  lemma MappingIsInvolution()
    ensures |Mapping| == 4
    ensures multiset(Mapping) == multiset{0, 1, 2, 3}
    ensures forall i :: 0 <= i < |Mapping| ==> 0 <= Mapping[i] < |Mapping| && Mapping[Mapping[i]] == i
  {
    assert Mapping[0] == 0 && Mapping[1] == 3 && Mapping[2] == 2 && Mapping[3] == 1;
  }

  /** `designNames[MAPPING[design]]`; None where Java would index out of bounds. */
  function DesignDescription(designNames: seq<string>, design: int): (d: Option<string>)
    ensures d.Some? <==> 0 <= design < |Mapping| && Mapping[design] < |designNames|
  {
    if 0 <= design < |Mapping| && Mapping[design] < |designNames|
    then Some(designNames[Mapping[design]])
    else None
  }

  /** After picking dialog entry `which`, the description names exactly that entry. */
  lemma ChosenDesignDescribed(designNames: seq<string>, which: int)
    requires 0 <= which < |Mapping| && which < |designNames|
    ensures DesignDescription(designNames, Mapping[which]) == Some(designNames[which])
  {
    MappingIsInvolution();
  }

  /** A design chosen in the dialog is what the next `onResume` reads back, and is described by the chosen entry. */
  lemma ChosenDesignPersists(prefs: Preferences, designNames: seq<string>, which: int)
    requires 0 <= which < |Mapping| && which < |designNames|
    ensures var stored := prefs[BatteryWidget.PrefDesignType := IntPref(Mapping[which] as Int32)];
      && BatteryWidget.DesignOf(stored) == Mapping[which]
      && Preview(100, BatteryWidget.DesignOf(stored), designNames).description == Some(designNames[which])
  {
    ChosenDesignDescribed(designNames, which);
  }

  datatype PreviewView = PreviewView(
    iconLevel: Int32,
    capacity: BatteryWidget.Capacity,
    lightningVisible: bool,
    description: Option<string>)

  /** `updateWidgetPreview`: the widget's rules, except that the lightning shows whenever the level is below 100. */
  function Preview(chargeLevel: Int32, design: int, designNames: seq<string>): (p: PreviewView)
    ensures p.lightningVisible <==> chargeLevel < 100
    ensures 0 <= chargeLevel <= 100 ==> p.iconLevel == 200 * BatteryWidget.DesignBand(design) + chargeLevel
    ensures p.description.Some? <==> 0 <= design < |Mapping| && Mapping[design] < |designNames|
  {
    PreviewView(
      BatteryWidget.IconLevel(chargeLevel, design),
      BatteryWidget.CapacityViews(chargeLevel, design),
      chargeLevel < 100,
      DesignDescription(designNames, design))
  }

  /** The preview draws the icon and label exactly as the widget would, whatever the charger does. */
  lemma PreviewMatchesWidget(prefs: Preferences, chargeLevel: Int32, chargerConnected: bool, designNames: seq<string>)
    requires BatteryWidget.UpdateWidgets(prefs, chargeLevel, chargerConnected).Some?
    ensures var p := Preview(chargeLevel, BatteryWidget.DesignOf(prefs), designNames);
      var w := BatteryWidget.UpdateWidgets(prefs, chargeLevel, chargerConnected).value;
      && p.iconLevel == w.iconLevel
      && p.capacity == w.capacity
      && (p.lightningVisible <==> chargeLevel < 100)
      && (p.lightningVisible != w.lightningVisible <==> chargerConnected != (chargeLevel < 100))
  {
  }

  /** The preview label: one view gone, the other with the padded text, hidden at 100. */
  lemma PreviewLabel(chargeLevel: Int32, design: int, designNames: seq<string>)
    ensures var c := Preview(chargeLevel, design, designNames).capacity;
      && BatteryWidget.PlacedView(c, design).text == Some(BatteryWidget.LevelText(chargeLevel))
      && (BatteryWidget.PlacedView(c, design).visible <==> chargeLevel < 100)
      && !BatteryWidget.OtherView(c, design).visible
      && !(c.center.visible && c.rightBottom.visible)
  {
    BatteryWidget.CapacityViewsLabel(chargeLevel, design);
  }

  /** The widget id `onResume` returns with RESULT_OK, if any. */
  function ConfigurationResult(extras: Option<Bundle>): (r: Option<Int32>)
    ensures r.Some? <==>
      extras.Some? && ExtraAppWidgetId in extras.value && extras.value[ExtraAppWidgetId].IntExtra?
      && extras.value[ExtraAppWidgetId].i != InvalidAppWidgetId
    ensures r.Some? ==> extras.value[ExtraAppWidgetId] == IntExtra(r.value) && r.value != InvalidAppWidgetId
  {
    var id := GetIntExtra(extras, ExtraAppWidgetId, InvalidAppWidgetId);
    if id != InvalidAppWidgetId then Some(id) else None
  }

  /** The assigned-activity description: the stored display name, else the default text. */
  function AssignedDescription(prefs: Preferences, defaultText: string): (d: string)
    ensures PrefString(prefs, BatteryWidget.PrefActivityName).None? ==> d == defaultText
    ensures PrefString(prefs, BatteryWidget.PrefActivityName).Some? ==>
      d == PrefString(prefs, BatteryWidget.PrefActivityName).value
  {
    match PrefString(prefs, BatteryWidget.PrefActivityName)
    case Some(name) => name
    case None => defaultText
  }

  // ---------------------------------------------------------------------
  // The preview timer's index

  /** `if (++mLevel == LEVELS.length) mLevel = 0`. */
  function CycleNext(i: int, n: nat): (j: int)
    ensures 0 <= i < n ==> 0 <= j < n
    ensures 0 <= i < n ==> (j == 0 <==> i == n - 1)
    ensures 0 <= i < n - 1 ==> j == i + 1
  {
    if i + 1 == n then 0 else i + 1
  }

  /** The index after `k` timer steps from 0. */
  function CycleAfter(n: nat, k: nat): (i: int)
    ensures n > 0 ==> 0 <= i < n
  {
    if k == 0 then 0 else CycleNext(CycleAfter(n, k - 1), n)
  }

  /** The index stays in range and walks the table cyclically. */
  lemma {:induction false} CycleAfterIsMod(n: nat, k: nat)
    requires n > 0
    ensures CycleAfter(n, k) == k % n
  {
    if k == 0 {
      DivModUnique(0, n, 0, 0);
    } else {
      var j := k - 1;
      CycleAfterIsMod(n, j);
      ModSucc(n, j);
      var r := j % n;
      assert CycleAfter(n, k) == CycleNext(r, n);
      assert k % n == (if r + 1 == n then 0 else r + 1);
    }
  }
}
