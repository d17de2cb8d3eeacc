/**
  The widget's configuration screen (`BatteryWidgetActivity`): an animated
  preview that walks an ascending table of levels, and a dialog that picks
  the design.
 */
module BatteryWidgetActivity {
  import opened JavaText
  import opened Platform
  import opened WidgetPreview
  import BatteryWidget

  /** `LEVELS`: the levels the preview animates through, ascending. */
  const Levels: seq<Int32> := [1, 10, 20, 30, 40, 60, 80, 99, 100]

  /** The table ascends strictly and holds only real percentages. */
  lemma LevelsAscending()
    ensures |Levels| == 9
    ensures forall i, j :: 0 <= i < j < |Levels| ==> Levels[i] < Levels[j]
    ensures forall i :: 0 <= i < |Levels| ==> 1 <= Levels[i] <= 100
  {
  }

  /** From a fresh screen, the k-th timer step previews `Levels[k % 9]`: 10, 20, ..., 100, 1, 10, ... */
  lemma RunPreviews(k: nat)
    ensures 0 <= CycleAfter(|Levels|, k) < |Levels|
    ensures Levels[CycleAfter(|Levels|, k)] == Levels[k % |Levels|]
    ensures 1 <= Levels[CycleAfter(|Levels|, k)] <= 100
    ensures k % |Levels| == 0 ==> Levels[CycleAfter(|Levels|, k)] == 1
    ensures k % |Levels| == 1 ==> Levels[CycleAfter(|Levels|, k)] == 10
    ensures k % |Levels| == 8 ==> Levels[CycleAfter(|Levels|, k)] == 100
  {
    CycleAfterIsMod(|Levels|, k);
  }

  class Activity {
    /** The `design_names` string array shown by the dialog. */
    const designNames: seq<string>
    /** The `txt_assigned_activity_descr` string. */
    const defaultDescription: string

    var prefs: Preferences
    /** `mLevel`: index into Levels of the last previewed level. */
    var level: int
    /** `mDesign` */
    var design: Int32
    /** What the preview views currently show, once drawn. */
    var preview: Option<PreviewView>
    /** Whether the preview timer is posted on the handler. */
    var previewScheduled: bool
    /** The widget id returned with RESULT_OK, once set. */
    var result: Option<Int32>
    /** Text of the assigned-activity description, once set. */
    var assignedDescription: Option<string>
    /** How many widget redraws the screen has requested from the service. */
    var widgetUpdateRequests: nat

    ghost predicate Valid()
      reads this
    {
      0 <= level < |Levels|
    }

    /** `onCreate`, with the preferences as they are stored. */
    constructor (designNames: seq<string>, defaultDescription: string, prefs: Preferences)
      ensures Valid()
      ensures this.designNames == designNames && this.defaultDescription == defaultDescription
      ensures this.prefs == prefs && level == 0 && design == 0 && preview == None
      ensures !previewScheduled && result == None && assignedDescription == None && widgetUpdateRequests == 0
    {
      this.designNames := designNames;
      this.defaultDescription := defaultDescription;
      this.prefs := prefs;
      level := 0;
      design := 0;
      preview := None;
      previewScheduled := false;
      result := None;
      assignedDescription := None;
      widgetUpdateRequests := 0;
    }

    /** `onResume`: request a redraw, return OK for a real widget id, describe, reload the design, preview 100 %. */
    method OnResume(extras: Option<Bundle>)
      requires Valid()
      modifies this
      ensures Valid()
      ensures widgetUpdateRequests == old(widgetUpdateRequests) + 1
      ensures result == if ConfigurationResult(extras).Some? then ConfigurationResult(extras) else old(result)
      ensures assignedDescription == Some(AssignedDescription(prefs, defaultDescription))
      ensures design == BatteryWidget.DesignOf(prefs)
      ensures preview == Some(Preview(100, design, designNames))
      ensures previewScheduled
      ensures level == old(level) && prefs == old(prefs)
    {
      widgetUpdateRequests := widgetUpdateRequests + 1;
      var id := ConfigurationResult(extras);
      if id.Some? {
        result := id;
      }
      assignedDescription := Some(AssignedDescription(prefs, defaultDescription));
      design := BatteryWidget.DesignOf(prefs);
      preview := Some(Preview(100, design, designNames));
      previewScheduled := true;
    }

    /** `onPause`: stop the preview timer. */
    method OnPause()
      modifies this
      ensures !previewScheduled
      ensures level == old(level) && design == old(design) && preview == old(preview) && prefs == old(prefs)
      ensures result == old(result) && widgetUpdateRequests == old(widgetUpdateRequests)
      ensures assignedDescription == old(assignedDescription)
    {
      previewScheduled := false;
    }

    /** The dialog's `onClick`: entry `which` selects and stores design `MAPPING[which]`; a negative index does nothing. */
    method OnDesignChosen(which: int)
      requires Valid()
      requires which < |Mapping|
      modifies this
      ensures Valid()
      ensures which > -1 ==>
        && design == Mapping[which]
        && prefs == old(prefs)[BatteryWidget.PrefDesignType := IntPref(Mapping[which] as Int32)]
        && previewScheduled
        && widgetUpdateRequests == old(widgetUpdateRequests) + 1
      ensures which <= -1 ==>
        && design == old(design) && prefs == old(prefs)
        && previewScheduled == old(previewScheduled) && widgetUpdateRequests == old(widgetUpdateRequests)
      ensures level == old(level) && preview == old(preview) && result == old(result)
      ensures assignedDescription == old(assignedDescription)
    {
      if which > -1 {
        design := Mapping[which] as Int32;
        prefs := prefs[BatteryWidget.PrefDesignType := IntPref(design)];
        previewScheduled := true;
        widgetUpdateRequests := widgetUpdateRequests + 1;
      }
    }

    /** `run`: advance to the next table level, wrapping to the first, and preview it. */
    method Run()
      requires Valid()
      modifies this
      ensures Valid()
      ensures level == CycleNext(old(level), |Levels|)
      ensures preview == Some(Preview(Levels[level], design, designNames))
      ensures previewScheduled
      ensures design == old(design) && prefs == old(prefs) && result == old(result)
      ensures widgetUpdateRequests == old(widgetUpdateRequests) && assignedDescription == old(assignedDescription)
    {
      level := level + 1;
      if level == |Levels| {
        level := 0;
      }
      preview := Some(Preview(Levels[level], design, designNames));
      previewScheduled := true;
    }
  }
}
