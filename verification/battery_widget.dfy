/**
  The home-screen widget renderer (`BatteryWidget.updateWidgets`): a pure
  projection from the charge level, the charger flag and the stored
  preferences to the description of the remote view the host redraws.
 */
module BatteryWidget {
  import opened JavaText
  import opened Platform

  // Preference keys
  const PrefPackageName := "package"
  const PrefClassName := "class"
  const PrefActivityName := "name"
  const PrefDesignType := "design-type"

  // Designs, as stored under PrefDesignType
  const DesignCool: Int32 := 0
  const DesignAwful: Int32 := 1
  const DesignAwfullyCool: Int32 := 2
  const DesignColorful: Int32 := 3

  /** MIME type of the generic "open assigned activity" intent. */
  const Mime := "org.droidparts.battery_widget/widget"

  // ---------------------------------------------------------------------
  // Icon level

  /** `getIconLevel`: the frame of the level-list drawable, offset by the design's band. */
  function IconLevel(chargeLevel: Int32, design: int): (icon: Int32)
    ensures icon == Wrap32(200 * DesignBand(design) + chargeLevel)
    ensures 0 <= chargeLevel <= 100 ==> icon == 200 * DesignBand(design) + chargeLevel
  {
    if design == DesignCool then chargeLevel
    else if design == DesignAwful || design == DesignAwfullyCool then Wrap32(200 + chargeLevel)
    else if design == DesignColorful then Wrap32(400 + chargeLevel)
    else chargeLevel
  }

  /** The drawable frame set a design selects: 0 plain, 1 awful, 2 colourful. */
  function DesignBand(design: int): (band: nat)
    ensures band < 3
  {
    match design
    case 1 => 1
    case 2 => 1
    case 3 => 2
    case _ => 0
  }

  /** The unknown level -1 is drawn one frame below the band: AWFULLY_COOL shows frame 199. */
  lemma IconLevelOfUnknownLevel()
    ensures IconLevel(-1, DesignAwfullyCool) == 199
    ensures DecodeIconLevel(IconLevel(-1, DesignAwfullyCool)) == (0, 199)
  {
  }

  /** Reads a frame number back as (frame set, charge level). */
  function DecodeIconLevel(icon: int): (int, int)
  {
    (icon / 200, icon % 200)
  }

  /** For a real percentage, the icon level determines both the level and the frame set. */
  lemma IconLevelDecodes(chargeLevel: Int32, design: int)
    requires 0 <= chargeLevel <= 100
    ensures DecodeIconLevel(IconLevel(chargeLevel, design)) == (DesignBand(design) as int, chargeLevel as int)
  {
  }

  /** The three bands [0,100], [200,300], [400,500], and strict growth within a band. */
  lemma IconLevelBands(l1: Int32, l2: Int32, design: int)
    requires 0 <= l1 < l2 <= 100
    ensures 200 * DesignBand(design) <= IconLevel(l1, design) < IconLevel(l2, design) <= 200 * DesignBand(design) + 100
  {
  }

  /** Designs of different bands never share a frame, whatever the two levels. */
  lemma IconLevelBandsDisjoint(l1: Int32, d1: int, l2: Int32, d2: int)
    requires 0 <= l1 <= 100 && 0 <= l2 <= 100
    requires IconLevel(l1, d1) == IconLevel(l2, d2)
    ensures l1 == l2 && DesignBand(d1) == DesignBand(d2)
  {
    IconLevelDecodes(l1, d1);
    IconLevelDecodes(l2, d2);
  }

  // ---------------------------------------------------------------------
  // Capacity label

  /** `isCapacityRightBottom`: every design but AWFUL puts the label in the corner. */
  function IsCapacityRightBottom(design: int): (rightBottom: bool)
    ensures rightBottom <==> design != DesignAwful
  {
    design != DesignAwful
  }

  /** The label text: `"0" + chargeLevel` below ten, `String.valueOf(chargeLevel)` otherwise. */
  function LevelText(chargeLevel: int): (text: string)
    ensures 0 <= chargeLevel ==> AllDigits(text)
    ensures 0 <= chargeLevel <= 99 ==> |text| == 2
    ensures chargeLevel < 10 ==> |text| >= 2 && text[0] == '0'
  {
    if chargeLevel < 0 then "0" + IntToDecimal(chargeLevel)
    else
      NatToDecimalLength(chargeLevel);
      if chargeLevel < 10 then "0" + IntToDecimal(chargeLevel) else IntToDecimal(chargeLevel)
  }

  /** Every percentage below 100 reads as exactly two digits; every natural level reads back. */
  lemma LevelTextRoundTrip(chargeLevel: nat)
    ensures AllDigits(LevelText(chargeLevel))
    ensures DecimalValue(LevelText(chargeLevel)) == chargeLevel
    ensures chargeLevel <= 99 <==> |LevelText(chargeLevel)| == 2
  {
    NatToDecimalLength(chargeLevel);
    NatToDecimalRoundTrip(chargeLevel);
    if chargeLevel < 10 {
      LeadingZero(NatToDecimal(chargeLevel));
    }
  }

  /** The cached level before any battery event is -1, which is padded as if it were small. */
  lemma LevelTextOfUnknownLevel()
    ensures LevelText(-1) == "0-1"
  {
  }

  /** One capacity text view: the text set on it (None: left untouched) and its visibility. */
  datatype CapacityView = CapacityView(text: Option<string>, visible: bool)

  datatype Capacity = Capacity(center: CapacityView, rightBottom: CapacityView)

  /** The two capacity views: the placed one gets the text and is shown below 100, the other is gone. */
  function CapacityViews(chargeLevel: int, design: int): (c: Capacity)
    ensures c.center.text.Some? != c.rightBottom.text.Some?
    ensures !(c.center.visible && c.rightBottom.visible)
    ensures c.center.visible ==> c.center.text.Some?
    ensures c.rightBottom.visible ==> c.rightBottom.text.Some?
  {
    var placed := CapacityView(Some(LevelText(chargeLevel)), chargeLevel < 100);
    var gone := CapacityView(None, false);
    if IsCapacityRightBottom(design) then Capacity(gone, placed) else Capacity(placed, gone)
  }

  /** The view that carries the label, as the design places it. */
  function PlacedView(c: Capacity, design: int): CapacityView
  {
    if IsCapacityRightBottom(design) then c.rightBottom else c.center
  }

  /** The view the design does not use. */
  function OtherView(c: Capacity, design: int): CapacityView
  {
    if IsCapacityRightBottom(design) then c.center else c.rightBottom
  }

  /** Exactly one view receives the label; it is visible iff the level is below 100, the other never is. */
  lemma CapacityViewsLabel(chargeLevel: int, design: int)
    ensures var c := CapacityViews(chargeLevel, design);
      && PlacedView(c, design).text == Some(LevelText(chargeLevel))
      && (PlacedView(c, design).visible <==> chargeLevel < 100)
      && OtherView(c, design).text.None? && !OtherView(c, design).visible
      && (c.center.text.Some? <==> !c.rightBottom.text.Some?)
      && (c.rightBottom.text.Some? <==> design != DesignAwful)
  {
  }

  // ---------------------------------------------------------------------
  // Tap action

  datatype TapAction =
    | ViewByType(mimeType: string)
    | LaunchComponent(packageName: string, className: string)

  /**
    `getPendingIntent`: the generic VIEW intent unless an activity name is
    stored, else the stored component. None where `setClassName` is handed a
    missing package or class and the `ComponentName` constructor throws.
   */
  function TapActionFor(prefs: Preferences): (t: Option<TapAction>)
    ensures t == Some(ViewByType(Mime)) <==> PrefString(prefs, PrefActivityName).None?
    ensures t.None? <==>
      PrefString(prefs, PrefActivityName).Some?
      && (PrefString(prefs, PrefPackageName).None? || PrefString(prefs, PrefClassName).None?)
    ensures t.Some? && t.value.LaunchComponent? ==>
      && PrefString(prefs, PrefPackageName) == Some(t.value.packageName)
      && PrefString(prefs, PrefClassName) == Some(t.value.className)
  {
    if PrefString(prefs, PrefActivityName).None? then Some(ViewByType(Mime))
    else
      match (PrefString(prefs, PrefPackageName), PrefString(prefs, PrefClassName))
      case (Some(packageName), Some(className)) => Some(LaunchComponent(packageName, className))
      case _ => None
  }

  /** The stored display name matters only by being there: its value never changes the action. */
  lemma TapActionIgnoresName(p1: Preferences, p2: Preferences)
    requires PrefString(p1, PrefActivityName).Some? == PrefString(p2, PrefActivityName).Some?
    requires PrefString(p1, PrefPackageName) == PrefString(p2, PrefPackageName)
    requires PrefString(p1, PrefClassName) == PrefString(p2, PrefClassName)
    ensures TapActionFor(p1) == TapActionFor(p2)
  {
  }

  /** `BatteryWidgetProvider.onDisabled`: forgets the assigned activity name. */
  function OnDisabled(prefs: Preferences): (p: Preferences)
    ensures PrefActivityName !in p
    ensures forall k :: k in prefs && k != PrefActivityName ==> k in p && p[k] == prefs[k]
    ensures p.Keys <= prefs.Keys
  {
    prefs - {PrefActivityName}
  }

  /** After the last widget is removed the tap falls back to the generic action. */
  lemma DisabledResetsTap(prefs: Preferences)
    ensures TapActionFor(OnDisabled(prefs)) == Some(ViewByType(Mime))
  {
  }

  // ---------------------------------------------------------------------
  // The whole view

  datatype WidgetView = WidgetView(iconLevel: Int32, tap: TapAction, capacity: Capacity, lightningVisible: bool)

  /** The design stored in the preferences, AWFULLY_COOL when none is. */
  function DesignOf(prefs: Preferences): (design: Int32)
    ensures PrefDesignType !in prefs ==> design == DesignAwfullyCool
    ensures PrefDesignType in prefs && prefs[PrefDesignType].IntPref? ==> design == prefs[PrefDesignType].i
  {
    PrefInt(prefs, PrefDesignType, DesignAwfullyCool)
  }

  /** `updateWidgets`: the view pushed to every instance of the widget; None where building the tap intent throws. */
  function UpdateWidgets(prefs: Preferences, chargeLevel: Int32, chargerConnected: bool): (v: Option<WidgetView>)
    ensures v.Some? <==> TapActionFor(prefs).Some?
    ensures v.Some? ==> v.value.tap == TapActionFor(prefs).value && (v.value.lightningVisible <==> chargerConnected)
  {
    var design := DesignOf(prefs);
    match TapActionFor(prefs)
    case Some(tap) =>
      Some(WidgetView(IconLevel(chargeLevel, design), tap, CapacityViews(chargeLevel, design), chargerConnected))
    case None => None
  }

  /** What a redraw shows, for any level and flag. */
  lemma UpdateWidgetsView(prefs: Preferences, chargeLevel: Int32, chargerConnected: bool)
    requires TapActionFor(prefs).Some?
    ensures UpdateWidgets(prefs, chargeLevel, chargerConnected).Some?
    ensures var v := UpdateWidgets(prefs, chargeLevel, chargerConnected).value;
      var design := DesignOf(prefs);
      && (PrefDesignType !in prefs ==> design == DesignAwfullyCool)
      && v.iconLevel == Wrap32(200 * DesignBand(design) + chargeLevel)
      && (0 <= chargeLevel <= 100 ==> DecodeIconLevel(v.iconLevel) == (DesignBand(design) as int, chargeLevel as int))
      && PlacedView(v.capacity, design).text == Some(LevelText(chargeLevel))
      && (PlacedView(v.capacity, design).visible <==> chargeLevel < 100)
      && !OtherView(v.capacity, design).visible
      && (0 <= chargeLevel <= 99 ==> |LevelText(chargeLevel)| == 2 && DecimalValue(LevelText(chargeLevel)) == chargeLevel)
      && (v.lightningVisible <==> chargerConnected)
      && Some(v.tap) == TapActionFor(prefs)
  {
    var design := DesignOf(prefs);
    CapacityViewsLabel(chargeLevel, design);
    if 0 <= chargeLevel <= 100 {
      IconLevelDecodes(chargeLevel, design);
      LevelTextRoundTrip(chargeLevel);
    }
  }
}
