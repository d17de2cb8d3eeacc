/**
  The Quick Settings flavour of the configuration screen
  (`QuickBatteryActivity`): the same preview and design dialog, a
  descending table of levels, and a market link shown only when Quick
  Settings is not installed.
 */
module QuickBatteryActivity {
  import opened JavaText
  import opened Platform
  import opened WidgetPreview
  import BatteryWidget

  /** `LEVELS`: the levels the preview animates through, descending. */
  const Levels: seq<Int32> := [100, 99, 80, 60, 40, 30, 20, 10, 1]

  /** The table descends strictly and holds only real percentages. */
  lemma LevelsDescending()
    ensures |Levels| == 9
    ensures forall i, j :: 0 <= i < j < |Levels| ==> Levels[i] > Levels[j]
    ensures forall i :: 0 <= i < |Levels| ==> 1 <= Levels[i] <= 100
  {
  }

  /** From a fresh screen, the k-th timer step previews `Levels[k % 9]`: 99, 80, ..., 1, 100, 99, ... */
  lemma RunPreviews(k: nat)
    ensures 0 <= CycleAfter(|Levels|, k) < |Levels|
    ensures Levels[CycleAfter(|Levels|, k)] == Levels[k % |Levels|]
    ensures 1 <= Levels[CycleAfter(|Levels|, k)] <= 100
    ensures k % |Levels| == 0 ==> Levels[CycleAfter(|Levels|, k)] == 100
    ensures k % |Levels| == 1 ==> Levels[CycleAfter(|Levels|, k)] == 99
    ensures k % |Levels| == 8 ==> Levels[CycleAfter(|Levels|, k)] == 1
  {
    CycleAfterIsMod(|Levels|, k);
  }

  class Activity {
    /** The `design_names` string array shown by the dialog. */
    const designNames: seq<string>
    /** The `txt_assigned_activity_descr` string. */
    const defaultDescription: string

    var prefs: Preferences
    /** `mLevel`: index into Levels of the last previewed level. */
    var level: int
    /** `mDesign` */
    var design: Int32
    /** What the preview views currently show, once drawn. */
    var preview: Option<PreviewView>
    /** Whether the preview timer is posted on the handler. */
    var previewScheduled: bool
    /** The widget id returned with RESULT_OK, once set. */
    var result: Option<Int32>
    /** Text of the assigned-activity description, once set. */
    var assignedDescription: Option<string>
    /** How many widget redraws the screen has requested from the service. */
    var widgetUpdateRequests: nat
    /** Visibility of the market link to Quick Settings, once set. */
    var marketLinkVisible: Option<bool>

    ghost predicate Valid()
      reads this
    {
      0 <= level < |Levels|
    }

    /** `onCreate`, with the preferences as they are stored. */
    constructor (designNames: seq<string>, defaultDescription: string, prefs: Preferences)
      ensures Valid()
      ensures this.designNames == designNames && this.defaultDescription == defaultDescription
      ensures this.prefs == prefs && level == 0 && design == 0 && preview == None
      ensures !previewScheduled && result == None && assignedDescription == None && widgetUpdateRequests == 0
      ensures marketLinkVisible == None
    {
      this.designNames := designNames;
      this.defaultDescription := defaultDescription;
      this.prefs := prefs;
      level := 0;
      design := 0;
      preview := None;
      previewScheduled := false;
      result := None;
      assignedDescription := None;
      widgetUpdateRequests := 0;
      marketLinkVisible := None;
    }

    /**
      `onResume`: request a redraw, return OK for a real widget id, offer the
      market link only without Quick Settings, describe, reload the design,
      preview 100 %.
     */
    method OnResume(extras: Option<Bundle>, quickSettingsInstalled: bool)
      requires Valid()
      modifies this
      ensures Valid()
      ensures widgetUpdateRequests == old(widgetUpdateRequests) + 1
      ensures result == if ConfigurationResult(extras).Some? then ConfigurationResult(extras) else old(result)
      ensures assignedDescription == Some(AssignedDescription(prefs, defaultDescription))
      ensures design == BatteryWidget.DesignOf(prefs)
      ensures preview == Some(Preview(100, design, designNames))
      ensures previewScheduled
      ensures marketLinkVisible == Some(!quickSettingsInstalled)
      ensures level == old(level) && prefs == old(prefs)
    {
      widgetUpdateRequests := widgetUpdateRequests + 1;
      var id := ConfigurationResult(extras);
      if id.Some? {
        result := id;
      }
      marketLinkVisible := Some(!quickSettingsInstalled);
      assignedDescription := Some(AssignedDescription(prefs, defaultDescription));
      design := BatteryWidget.DesignOf(prefs);
      preview := Some(Preview(100, design, designNames));
      previewScheduled := true;
    }

    /** `onPause`: stop the preview timer. */
    method OnPause()
      modifies this
      ensures !previewScheduled
      ensures level == old(level) && design == old(design) && preview == old(preview) && prefs == old(prefs)
      ensures result == old(result) && widgetUpdateRequests == old(widgetUpdateRequests)
      ensures assignedDescription == old(assignedDescription) && marketLinkVisible == old(marketLinkVisible)
    {
      previewScheduled := false;
    }

    /** The dialog's `onClick`: entry `which` selects and stores design `MAPPING[which]`; a negative index does nothing. */
    method OnDesignChosen(which: int)
      requires Valid()
      requires which < |Mapping|
      modifies this
      ensures Valid()
      ensures which > -1 ==>
        && design == Mapping[which]
        && prefs == old(prefs)[BatteryWidget.PrefDesignType := IntPref(Mapping[which] as Int32)]
        && previewScheduled
        && widgetUpdateRequests == old(widgetUpdateRequests) + 1
      ensures which <= -1 ==>
        && design == old(design) && prefs == old(prefs)
        && previewScheduled == old(previewScheduled) && widgetUpdateRequests == old(widgetUpdateRequests)
      ensures level == old(level) && preview == old(preview) && result == old(result)
      ensures assignedDescription == old(assignedDescription) && marketLinkVisible == old(marketLinkVisible)
    {
      if which > -1 {
        design := Mapping[which] as Int32;
        prefs := prefs[BatteryWidget.PrefDesignType := IntPref(design)];
        previewScheduled := true;
        widgetUpdateRequests := widgetUpdateRequests + 1;
      }
    }

    /** `run`: advance to the next table level, wrapping to the first, and preview it. */
    method Run()
      requires Valid()
      modifies this
      ensures Valid()
      ensures level == CycleNext(old(level), |Levels|)
      ensures preview == Some(Preview(Levels[level], design, designNames))
      ensures previewScheduled
      ensures design == old(design) && prefs == old(prefs) && result == old(result)
      ensures widgetUpdateRequests == old(widgetUpdateRequests) && assignedDescription == old(assignedDescription)
      ensures marketLinkVisible == old(marketLinkVisible)
    {
      level := level + 1;
      if level == |Levels| {
        level := 0;
      }
      preview := Some(Preview(Levels[level], design, designNames));
      previewScheduled := true;
    }
  }
}
