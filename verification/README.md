# Battery widget, modelled in Dafny

This project models the logic of the droidparts battery widget, an Android
home-screen widget. The widget shows the battery charge as a level-list icon,
a two-digit label and a charging bolt. Four parts are modelled:

- **Renderer.** `BatteryWidget` (`battery_widget.dfy`) maps the charge level,
  the charger flag and the stored preferences to the view the widget host
  draws. That view is the icon frame, the two capacity labels and the
  lightning, plus what a tap does.
- **Service.** `BatteryService` (`battery_service.dfy`) is a class:
  - it turns `ACTION_BATTERY_CHANGED` payloads into a cached percentage and
    charging flag;
  - it asks for a redraw on every battery broadcast;
  - a screen gate (`ScreenStateReceiver`) subscribes to battery broadcasts
    only while the screen is on.

  The platform's receiver registry is modelled as a log of calls. `Replay`
  gives the live registrations, and gives `None` where Android would throw
  or leak a receiver.
- **Configuration screens.** `BatteryWidgetActivity` and
  `QuickBatteryActivity` are classes over the shared preview rules in
  `WidgetPreview`:
  - an animated preview cycles a table of levels;
  - a dialog maps its entries to designs through `MAPPING`;
  - `onResume` works out the widget id to return, the description texts and,
    for the Quick Settings flavour, whether the market link is shown.
- **Picker.** `SettingsActivityList` lets the user choose the activity a tap
  launches:
  - it parses the `package/class` featured entries;
  - it sorts their class names into a search dictionary and searches it the
    way `Arrays.binarySearch` does;
  - it builds the "recommended" and "other" groups and appends each
    non-empty one to the adapter;
  - it stores the chosen activity.

Two shared modules model the Java semantics the code relies on:

- `JavaText` covers the Java `int` range, with 32-bit wrap-around and
  truncating division. It also covers `String.valueOf(int)`, with a parser
  as its inverse, the `String.compareTo` order, and `TextUtils.split`, with
  `Join` as its inverse.
- `Platform` covers intent extras and `SharedPreferences`, as maps with
  Java's defaulting getters.

`IntArith` holds a few division lemmas used by the proofs.

`BatteryService.java` and `SettingsActivityList.java` live in the package
`com.bwx.qs.battery`, and they call that package's own `BatteryWidget`, which
is not part of this model. They are modelled as calling
`org/droidparts/battery_widget/BatteryWidget.java`, whose constants and
signatures are the same.

## Model

| member | source | states |
|---|---|---|
| JavaText.Wrap32 | src/com/bwx/qs/battery/BatteryService.java:57 | the result is an `int` congruent to the exact value modulo 2^32, and equals it when it already fits |
| JavaText.TruncDiv | src/com/bwx/qs/battery/BatteryService.java:57 | Java division truncates toward zero: the ordinary quotient for a non-negative numerator, and for a negative one the non-positive quotient rounded up (q·b ≥ a > (q−1)·b) |
| JavaText.NatToDecimal | src/org/droidparts/battery_widget/BatteryWidget.java:52 | `String.valueOf` of a natural is a non-empty string of digits, with no leading zero from 10 on |
| JavaText.IntToDecimal | src/org/droidparts/battery_widget/BatteryWidget.java:52 | `String.valueOf(int)` is a non-empty digit string for a non-negative value, and a minus sign followed by digits for a negative one, with no leading zero after the sign from -10 down |
| JavaText.NatToDecimalRoundTrip | src/org/droidparts/battery_widget/BatteryWidget.java:52 | reading back the decimal text of n gives n |
| JavaText.IntToDecimalRoundTrip | src/org/droidparts/battery_widget/BatteryWidget.java:52 | reading back the signed decimal text of any int, negative ones included, gives it back |
| JavaText.LeadingZero | src/org/droidparts/battery_widget/BatteryWidget.java:52 | prefixing "0" to a digit string keeps its digits and its value |
| JavaText.Less | src/com/bwx/qs/battery/SettingsActivityList.java:84 | `compareTo(a, b) < 0`: the first differing character decides, and a proper prefix comes first (no contract; the order lemmas below state its properties) |
| JavaText.NatToDecimalLength | src/org/droidparts/battery_widget/BatteryWidget.java:52 | the text has 1 digit below 10, 2 digits below 100, and 3 digits at 100 to 999 |
| JavaText.LessIrreflexive | src/com/bwx/qs/battery/SettingsActivityList.java:84 | no string compares below itself |
| JavaText.LessTransitive | src/com/bwx/qs/battery/SettingsActivityList.java:84 | the `compareTo` order is transitive |
| JavaText.LessTotal | src/com/bwx/qs/battery/SettingsActivityList.java:84 | any two distinct strings are ordered one way or the other |
| JavaText.LessAsymmetric | src/com/bwx/qs/battery/SettingsActivityList.java:224 | two strings are never each below the other |
| JavaText.LessEqLessTransitive | src/com/bwx/qs/battery/SettingsActivityList.java:224 | at-most followed by strictly-below gives strictly-below |
| JavaText.LessLessEqTransitive | src/com/bwx/qs/battery/SettingsActivityList.java:224 | strictly-below followed by at-most gives strictly-below |
| JavaText.Split | src/com/bwx/qs/battery/SettingsActivityList.java:79 | splitting on a separator always gives at least one piece |
| JavaText.TextSplit | src/com/bwx/qs/battery/SettingsActivityList.java:79 | `TextUtils.split` gives no pieces exactly for the empty text; for any other text it is `Split`, so the `Split` lemmas apply |
| JavaText.SplitJoin | src/com/bwx/qs/battery/SettingsActivityList.java:79 | joining the pieces with the separator rebuilds the text |
| JavaText.SplitPiecesFree | src/com/bwx/qs/battery/SettingsActivityList.java:79 | no piece contains the separator |
| JavaText.SplitWithoutSeparator | src/com/bwx/qs/battery/SettingsActivityList.java:79 | a text without the separator is a single piece |
| JavaText.SplitAtFirst | src/com/bwx/qs/battery/SettingsActivityList.java:79 | the text before the first separator is the first piece and the rest splits on its own |
| JavaText.SplitCount | src/com/bwx/qs/battery/SettingsActivityList.java:79 | there is exactly one piece iff the text has no separator |
| JavaText.FirstIndex | src/com/bwx/qs/battery/SettingsActivityList.java:79 | for a text containing the separator, the index of its first occurrence: the character there is the separator and none before it is |
| BatteryWidget.DesignBand | src/org/droidparts/battery_widget/BatteryWidget.java:107-115 | each design selects one of three frame sets |
| BatteryWidget.IconLevel | src/org/droidparts/battery_widget/BatteryWidget.java:107-115 | for every level, the icon level is 200 times the design's frame set plus the level, in Java `int` arithmetic; for a level in [0,100] no wrap occurs |
| BatteryWidget.IsCapacityRightBottom | src/org/droidparts/battery_widget/BatteryWidget.java:117-119 | the label sits at the right bottom iff the design is not AWFUL, so also for AWFULLY_COOL, which shares AWFUL's frame set |
| BatteryWidget.IconLevelDecodes | src/org/droidparts/battery_widget/BatteryWidget.java:107-115 | for a level in [0,100], the icon level divided by 200 gives the design's frame set and the remainder gives the level, so COOL and unknown designs use 0-100, AWFUL and AWFULLY_COOL use 200-300, and COLORFUL uses 400-500 |
| BatteryWidget.IconLevelBands | src/org/droidparts/battery_widget/BatteryWidget.java:107-115 | within a design the icon level grows strictly with the charge level and stays inside that design's band |
| BatteryWidget.IconLevelBandsDisjoint | src/org/droidparts/battery_widget/BatteryWidget.java:107-115 | two real levels drawn with designs of different frame sets never give the same icon level |
| BatteryWidget.IconLevelOfUnknownLevel | src/org/droidparts/battery_widget/BatteryWidget.java:111 | the cached level -1 under AWFULLY_COOL is frame 199, which lies in the plain band and does not decode to (1, -1) |
| BatteryWidget.LevelText | src/org/droidparts/battery_widget/BatteryWidget.java:52 | the label is digits for a non-negative level, exactly two of them up to 99, and starts with a padding "0" below 10 |
| BatteryWidget.LevelTextRoundTrip | src/org/droidparts/battery_widget/BatteryWidget.java:52 | the label is all digits and reads back as the level; it has exactly two digits iff the level is at most 99 |
| BatteryWidget.LevelTextOfUnknownLevel | src/org/droidparts/battery_widget/BatteryWidget.java:52 | the initial level -1 is padded to "0-1" |
| BatteryWidget.CapacityViews | src/org/droidparts/battery_widget/BatteryWidget.java:63-75 | exactly one of the two capacity views gets the label, they are never both visible, and a visible view has its label |
| BatteryWidget.CapacityViewsLabel | src/org/droidparts/battery_widget/BatteryWidget.java:63-75 | exactly one capacity view gets the label: the right-bottom one for every design but AWFUL. It is visible iff the level is below 100, and the other view is gone |
| BatteryWidget.TapActionFor | src/org/droidparts/battery_widget/BatteryWidget.java:88-105 | a tap sends the generic VIEW intent with the widget MIME type iff no activity name is stored. With a name stored, it launches the stored package and class, and there is no action (None) iff either of them is missing, where Java throws building the component |
| BatteryWidget.TapActionIgnoresName | src/org/droidparts/battery_widget/BatteryWidget.java:91-101 | the stored name decides the action only by being present |
| BatteryWidget.OnDisabled | src/org/droidparts/battery_widget/BatteryWidgetProvider.java:48-49 | disabling the last widget removes the activity name and keeps every other preference |
| BatteryWidget.DisabledResetsTap | src/org/droidparts/battery_widget/BatteryWidgetProvider.java:49 | after disabling, a tap falls back to the generic VIEW intent |
| BatteryWidget.DesignOf | src/org/droidparts/battery_widget/BatteryWidget.java:50 | the stored design, or AWFULLY_COOL when none is stored |
| BatteryWidget.UpdateWidgets | src/org/droidparts/battery_widget/BatteryWidget.java:47-86 | a view is built iff the tap action can be built; its tap is that action and its lightning shows iff the charger is connected |
| BatteryWidget.UpdateWidgetsView | src/org/droidparts/battery_widget/BatteryWidget.java:47-86 | whenever the tap target can be built, a redraw exists and uses AWFULLY_COOL when no design is stored, an icon level of 200 times the design band plus the level (for a level in [0,100] it decodes back to that band and level), and the padded label in the placed view, shown iff the level is below 100. The lightning shows iff the charger is connected, and the tap follows the preferences |
| BatteryService.Percentage | src/com/bwx/qs/battery/BatteryService.java:53-58 | a negative level or a non-positive scale gives 0; for levels small enough not to overflow, the result is the truncated `level*100/scale` |
| BatteryService.PercentageBounds | src/com/bwx/qs/battery/BatteryService.java:56-57 | a raw level within its scale and at most 21474836, so that `rawlevel * 100` fits an `int`, gives a percentage in [0,100], and exactly 100 at full scale |
| BatteryService.PercentageExact | src/com/bwx/qs/battery/BatteryService.java:57 | without overflow the 32-bit computation equals the exact quotient |
| BatteryService.PercentageNotClamped | src/com/bwx/qs/battery/BatteryService.java:56-57 | a raw level above its scale is not clamped: 200 of 100 gives 200 |
| BatteryService.PercentageWraps | src/com/bwx/qs/battery/BatteryService.java:57 | the product is 32-bit: a full reading with scale 2^30 wraps to 0 |
| BatteryService.PercentageFullOverflows | src/com/bwx/qs/battery/BatteryService.java:57 | past that bound even a full reading leaves [0,100]: 30000000 of 30000000 gives -43 |
| BatteryService.ReadBattery | src/com/bwx/qs/battery/BatteryService.java:53-60 | the level is the percentage of the payload's level and scale (both -1 when absent), and charging holds iff plugged > 0 and the level is below 100 |
| BatteryService.ReadBatteryProperties | src/com/bwx/qs/battery/BatteryService.java:53-60 | charging holds iff plugged > 0 and the level is below 100, so a full battery never shows as charging; missing level or scale gives 0, and missing plug state means not charging |
| BatteryService.HalfChargedScenario | src/com/bwx/qs/battery/BatteryService.java:53-65 | level 50 of 100 on the charger reads as 50 % charging and redraws frame 250 with the label "50" and the bolt |
| BatteryService.Step | src/com/bwx/qs/battery/BatteryService.java:89 | one registration call fails (None) iff it registers a registered receiver or unregisters an unregistered one; otherwise it flips that receiver and keeps the other |
| BatteryService.Replay | src/com/bwx/qs/battery/BatteryService.java:84-109 | after a valid history, each receiver is registered iff it was registered exactly once more than it was unregistered |
| BatteryService.BatteryCalls | src/com/bwx/qs/battery/BatteryService.java:84-95 | `registerBatteryReceiver` makes no platform call iff the receiver is already in the requested state |
| BatteryService.BatteryCallsSafe | src/com/bwx/qs/battery/BatteryService.java:84-95 | thanks to the null guard, the calls never make the platform fail, and afterwards the battery registration equals the argument |
| BatteryService.UnguardedRegisterFails | src/com/bwx/qs/battery/BatteryService.java:86 | without the guard, registering while subscribed would register the receiver twice |
| BatteryService.ScreenStateReceiver.constructor | src/com/bwx/qs/battery/BatteryService.java:115 | a new gate has no battery subscription and no calls |
| BatteryService.ScreenStateReceiver.RegisterBatteryReceiver | src/com/bwx/qs/battery/BatteryService.java:84-97 | afterwards subscribed iff `register`; a repeated request is a no-op; the platform state stays consistent |
| BatteryService.ScreenStateReceiver.RegisterScreenReceiver | src/com/bwx/qs/battery/BatteryService.java:99-109 | registering listens for the screen and keeps the battery state; releasing first drops the battery subscription, then stops listening |
| BatteryService.ScreenStateReceiver.OnReceive | src/com/bwx/qs/battery/BatteryService.java:73-82 | screen on subscribes and screen off unsubscribes, making exactly the calls `registerBatteryReceiver` makes (none when already in that state); any other action changes nothing |
| BatteryService.ScreenOnOrDefault | src/com/bwx/qs/battery/BatteryService.java:153-173 | the probed screen state, or true when the probe threw |
| BatteryService.UpdateRequested | src/com/bwx/qs/battery/BatteryService.java:125-126 | a redraw is requested iff the extras exist and hold the update flag as boolean true |
| BatteryService.NewGate | src/com/bwx/qs/battery/BatteryService.java:114-121 | a new gate listens for the screen and is subscribed to battery broadcasts iff the screen is on; the platform sees the battery registration first |
| BatteryService.BatteryService.constructor | src/com/bwx/qs/battery/BatteryService.java:38-41 | the cached level starts at -1, not charging, with no gate |
| BatteryService.BatteryService.OnBatteryReceive | src/com/bwx/qs/battery/BatteryService.java:44-66 | on BATTERY_CHANGED the cache becomes the reading of the payload, and other actions keep it; every intent asks for a redraw with the cached values |
| BatteryService.BatteryService.DispatchBatteryBroadcast | src/com/bwx/qs/battery/BatteryService.java:86-94 | battery broadcasts change nothing while the gate is unsubscribed. While subscribed, each causes exactly one redraw; BATTERY_CHANGED sets the cache to the payload's reading, and any other action keeps it |
| BatteryService.BatteryService.DispatchScreenBroadcast | src/com/bwx/qs/battery/BatteryService.java:73-82 | after screen on the gate is subscribed, and after screen off it is not; any other action leaves the subscription and the call log as they were. Screen on and off add exactly the guarded battery calls, so a repeated screen on registers nothing. The cache and the redraws never change |
| BatteryService.BatteryService.OnStart | src/com/bwx/qs/battery/BatteryService.java:112-130 | only the first start builds the gate, subscribed iff the screen is on; later starts keep the subscription. A null start intent is reported as thrown, after the gate is built, and asks for no redraw; otherwise a redraw is requested iff the extras carry the update flag as true |
| BatteryService.BatteryService.OnDestroy | src/com/bwx/qs/battery/BatteryService.java:132-140 | the battery receiver is unregistered first (if subscribed) and then the screen receiver, so the platform holds no receiver; the gate reference is cleared |
| BatteryService.ScreenOffSuppressesRedraws | src/com/bwx/qs/battery/BatteryService.java:75-94 | once the screen goes off, a battery broadcast no longer redraws |
| WidgetPreview.MappingIsInvolution | src/org/droidparts/battery_widget/BatteryWidgetActivity.java:44 | MAPPING permutes the four entries and is its own inverse |
| WidgetPreview.DesignDescription | src/org/droidparts/battery_widget/BatteryWidgetActivity.java:129 | a description exists iff both `MAPPING[design]` and the name lookup are in range |
| WidgetPreview.ChosenDesignDescribed | src/org/droidparts/battery_widget/BatteryWidgetActivity.java:151-159 | after picking entry `which`, the description shows entry `which` |
| WidgetPreview.ChosenDesignPersists | src/org/droidparts/battery_widget/BatteryWidgetActivity.java:151-159 | the stored choice is what the next `onResume` reads back, and its preview names the chosen entry |
| WidgetPreview.Preview | src/org/droidparts/battery_widget/BatteryWidgetActivity.java:99-130 | the lightning shows iff the level is below 100, the icon level is the widget's for a real level, and a description exists iff the design lookups are in range |
| WidgetPreview.PreviewMatchesWidget | src/org/droidparts/battery_widget/BatteryWidgetActivity.java:99-123 | the preview icon and labels equal the widget's; its lightning shows iff the level is below 100, and differs from the widget's exactly when that disagrees with the charger flag |
| WidgetPreview.PreviewLabel | src/org/droidparts/battery_widget/BatteryWidgetActivity.java:113-123 | one view gets the padded label, visible iff the level is below 100; the other is gone, and never both show |
| WidgetPreview.ConfigurationResult | src/org/droidparts/battery_widget/BatteryWidgetActivity.java:76-86 | there is a result iff the extras hold an `int` widget id other than INVALID_APPWIDGET_ID, and the result is that id |
| WidgetPreview.AssignedDescription | src/org/droidparts/battery_widget/BatteryWidgetActivity.java:89-91 | the stored activity name when one is stored, otherwise the default text |
| WidgetPreview.CycleNext | src/org/droidparts/battery_widget/BatteryWidgetActivity.java:162-164 | an index in range stays in range, wraps to 0 exactly from the last entry, and otherwise moves one on |
| WidgetPreview.CycleAfter | src/org/droidparts/battery_widget/BatteryWidgetActivity.java:161-164 | after any number of steps the index is within the table |
| WidgetPreview.CycleAfterIsMod | src/org/droidparts/battery_widget/BatteryWidgetActivity.java:161-164 | after k timer steps from 0, the index is k mod the table length |
| BatteryWidgetActivity.LevelsAscending | src/org/droidparts/battery_widget/BatteryWidgetActivity.java:43 | the preview levels ascend strictly within [1,100] |
| BatteryWidgetActivity.RunPreviews | src/org/droidparts/battery_widget/BatteryWidgetActivity.java:161-167 | the k-th timer step previews `LEVELS[k mod 9]`, a real percentage: 10, 20, …, 100, 1, 10, … |
| BatteryWidgetActivity.Activity.constructor | src/org/droidparts/battery_widget/BatteryWidgetActivity.java:48-60 | the level index and design start at 0 and nothing has been shown |
| BatteryWidgetActivity.Activity.OnResume | src/org/droidparts/battery_widget/BatteryWidgetActivity.java:68-97 | requests one redraw, sets the result for a valid widget id, shows the assigned description, reloads the design (AWFULLY_COOL by default), previews 100 % and schedules the timer |
| BatteryWidgetActivity.Activity.OnPause | src/org/droidparts/battery_widget/BatteryWidgetActivity.java:63-66 | the preview timer stops and nothing else changes |
| BatteryWidgetActivity.Activity.OnDesignChosen | src/org/droidparts/battery_widget/BatteryWidgetActivity.java:151-159 | a non-negative entry sets and stores design `MAPPING[which]`, restarts the preview and requests a redraw; a negative one changes nothing |
| BatteryWidgetActivity.Activity.Run | src/org/droidparts/battery_widget/BatteryWidgetActivity.java:161-167 | advances the index cyclically within the table and previews that level with the current design |
| QuickBatteryActivity.LevelsDescending | src/org/droidparts/battery_widget/QuickBatteryActivity.java:48 | the preview levels descend strictly within [1,100] |
| QuickBatteryActivity.RunPreviews | src/org/droidparts/battery_widget/QuickBatteryActivity.java:189-195 | the k-th timer step previews `LEVELS[k mod 9]`: 99, 80, …, 1, 100, 99, … |
| QuickBatteryActivity.Activity.constructor | src/org/droidparts/battery_widget/QuickBatteryActivity.java:53-66 | the level index and design start at 0 and nothing has been shown |
| QuickBatteryActivity.Activity.OnResume | src/org/droidparts/battery_widget/QuickBatteryActivity.java:74-107 | as on the plain screen, and the market link is shown iff Quick Settings is not installed |
| QuickBatteryActivity.Activity.OnPause | src/org/droidparts/battery_widget/QuickBatteryActivity.java:69-72 | the preview timer stops and nothing else changes |
| QuickBatteryActivity.Activity.OnDesignChosen | src/org/droidparts/battery_widget/QuickBatteryActivity.java:179-187 | a non-negative entry sets and stores design `MAPPING[which]`, restarts the preview and requests a redraw; a negative one changes nothing |
| QuickBatteryActivity.Activity.Run | src/org/droidparts/battery_widget/QuickBatteryActivity.java:189-195 | advances the index cyclically within the table and previews that level with the current design |
| SettingsActivityList.ParseEntryPair | src/com/bwx/qs/battery/SettingsActivityList.java:79-80 | "p/c" gives package p and class c |
| SettingsActivityList.ParseEntry | src/com/bwx/qs/battery/SettingsActivityList.java:79-80 | an entry yields an activity iff it contains a slash (otherwise `params[1]` throws); package and class hold no slash, "package/class" is a prefix of the entry, and the class runs up to the next slash or the end of the entry |
| SettingsActivityList.JoinPrefix | src/com/bwx/qs/battery/SettingsActivityList.java:79 | the first two pieces, joined by the separator, begin the joined text; the separator follows them iff there are more than two pieces, and otherwise they are the whole text |
| SettingsActivityList.ClassNames | src/com/bwx/qs/battery/SettingsActivityList.java:81 | the i-th class name is that of the i-th featured activity |
| SettingsActivityList.ParseFeaturedActivities | src/com/bwx/qs/battery/SettingsActivityList.java:78-83 | succeeds iff every entry has a slash, giving one parsed activity per entry in order plus their class names; otherwise it reports the first malformed entry |
| SettingsActivityList.InsertSorted | src/com/bwx/qs/battery/SettingsActivityList.java:84 | inserting into a sorted list keeps it sorted and adds exactly that element |
| SettingsActivityList.InsertMultiset | src/com/bwx/qs/battery/SettingsActivityList.java:84 | insertion adds exactly the inserted element |
| SettingsActivityList.SortClassNames | src/com/bwx/qs/battery/SettingsActivityList.java:84 | the result is sorted and a permutation of the input |
| SettingsActivityList.BinarySearch | src/com/bwx/qs/battery/SettingsActivityList.java:224 | a non-negative result indexes the key; a negative result means the key is absent, with `-(r+1)` its insertion point |
| SettingsActivityList.OtherActivities | src/com/bwx/qs/battery/SettingsActivityList.java:217-229 | the "other" group is no longer than the launcher list and holds only launcher activities whose class name is not featured |
| SettingsActivityList.OtherActivitiesMembers | src/com/bwx/qs/battery/SettingsActivityList.java:217-229 | an activity is in the "other" group iff it is a launcher activity whose class name is not featured, whatever its package |
| SettingsActivityList.OtherActivitiesByMembership | src/com/bwx/qs/battery/SettingsActivityList.java:220-226 | the filter depends only on which class names are featured, so searching the sorted dictionary filters like the original list |
| SettingsActivityList.CollectOther | src/com/bwx/qs/battery/SettingsActivityList.java:219-229 | the loop keeps, in order, exactly the launcher items the dictionary lacks |
| SettingsActivityList.RecommendedActivities | src/com/bwx/qs/battery/SettingsActivityList.java:192-201 | everything any featured entry resolves to is recommended |
| SettingsActivityList.RecommendedMembers | src/com/bwx/qs/battery/SettingsActivityList.java:192-201 | an activity is recommended iff some featured entry resolves to it |
| SettingsActivityList.CollectRecommended | src/com/bwx/qs/battery/SettingsActivityList.java:192-201 | the nested loops build the concatenation, in featured order, of everything each entry resolves to |
| SettingsActivityList.PublishedGroups | src/com/bwx/qs/battery/SettingsActivityList.java:203-233 | at most two groups, none empty, and "other" comes first only when nothing is recommended |
| SettingsActivityList.PublishedGroupsShape | src/com/bwx/qs/battery/SettingsActivityList.java:203-233 | no empty group is published, each group appears iff it is non-empty, and "recommended" comes before "other" |
| SettingsActivityList.DoInBackground | src/com/bwx/qs/battery/SettingsActivityList.java:182-237 | the published groups are the non-empty recommended and other groups, in that order |
| SettingsActivityList.ExpandableListAdapter.constructor | src/com/bwx/qs/battery/SettingsActivityList.java:70-85 | parses every entry in order and leaves the dictionary sorted and holding exactly their class names |
| SettingsActivityList.ExpandableListAdapter.DictionaryIsSound | src/com/bwx/qs/battery/SettingsActivityList.java:83-84 | a class name is in the dictionary iff it is a featured class name |
| SettingsActivityList.ExpandableListAdapter.OnProgressUpdate | src/com/bwx/qs/battery/SettingsActivityList.java:175-179 | appends the group and nothing else changes |
| SettingsActivityList.ExpandableListAdapter.CollectActivities | src/com/bwx/qs/battery/SettingsActivityList.java:175-237 | the adapter's groups gain the published groups in order, and the "other" group filters on the featured class names |
| SettingsActivityList.ExpandableListAdapter.GetGroupCount | src/com/bwx/qs/battery/SettingsActivityList.java:132-134 | `getGroupCount`: the number of groups (no contract; `ListedGroups` states what it reads back) |
| SettingsActivityList.ExpandableListAdapter.GetChildrenCount | src/com/bwx/qs/battery/SettingsActivityList.java:124-126 | `getChildrenCount`: the size of that group (no contract; `ListedGroups` states what it reads back) |
| SettingsActivityList.ExpandableListAdapter.GetChild | src/com/bwx/qs/battery/SettingsActivityList.java:87-89 | `getChild`: that child of that group (no contract; `ListedGroups` states what it reads back) |
| SettingsActivityList.ExpandableListAdapter.ListedGroups | src/com/bwx/qs/battery/SettingsActivityList.java:87-134 | once the published groups fill an empty adapter, the list shows one group per non-empty list, each with children; group 0 lists the recommended items in order when there are any, and the last group lists the other items in order when there are any |
| SettingsActivityList.GroupId | src/com/bwx/qs/battery/SettingsActivityList.java:136-138 | `getGroupId`: the group's position is its id (no contract) |
| SettingsActivityList.ChildId | src/com/bwx/qs/battery/SettingsActivityList.java:91-93 | `getChildId`: the child's position within its group is its id (no contract) |
| SettingsActivityList.SelectItem | src/com/bwx/qs/battery/SettingsActivityList.java:266-269 | stores the chosen class, package and label together, keeps every other preference and adds no other key |
| SettingsActivityList.SelectedItemIsTapTarget | src/com/bwx/qs/battery/SettingsActivityList.java:266-269 | after a choice, the widget's tap launches exactly the chosen package and class |

## Left out

- Android view machinery is replaced by returned records and fields. This covers `RemoteViews`, `AppWidgetManager`, `PendingIntent`, inflation and `findViewById`. `updateAppWidget` becomes an entry appended to `widgetUpdates`.
- The screen probe `isScreenOn` (BatteryService.java:153-173) uses reflection on platform internals. It is an `Option<bool>` input, and `None` (the probe threw) reads as `true`, as the catch block does.
- Timers (`Handler.postDelayed`, `removeCallbacks`) are not modelled. Each timer tick is one `Run` call, and scheduling is the flag `previewScheduled`.
- `AsyncTask` threading is not modelled. `doInBackground` followed by its progress updates is run sequentially.
- The package manager's queries are inputs. The featured resolution is a function `resolve`. The launcher list is taken as already sorted by `ResolveInfo.DisplayNameComparator`, whose locale-dependent ordering is not modelled.
- `loadLabel` is the `displayName` field of an activity.
- The following side effects are not modelled:
  - logging and `Toast`;
  - the market intent;
  - `finish`;
  - `startActivity` launches, including the picker's button branch (SettingsActivityList.java:273-282) and the links to the picker;
  - starting and stopping the service from `BatteryWidgetProvider`.
- `requestWidgetUpdate` from the configuration screens counts as a request (`widgetUpdateRequests`). Its effect on the service is `BatteryService.OnStart` with the update flag set.
- The sticky `ACTION_BATTERY_CHANGED` that Android delivers at registration is not modelled. It arrives as an ordinary later `DispatchBatteryBroadcast`.
- A preference stored under a key with the wrong type makes Android's `getInt`/`getString` throw `ClassCastException`. `PrefInt` and `PrefString` return the default instead.
- `JavaText.Less` compares strings by character. It coincides with `String.compareTo` on UTF-16 code units when each character is one code unit, and supplementary characters are not distinguished.
- SettingsActivityList.SortClassNames: sorts a sequence by insertion rather than sorting the array in place as `Arrays.sort` does, so in-place update and aliasing of `mFeaturedClassNames` are not captured.
- SettingsActivityList.ExpandableListAdapter.constructor: requires every entry to contain a slash. With a malformed resource entry the Java constructor throws. That failure path is modelled by `ParseFeaturedActivities` returning `Failure`.
- BatteryWidgetActivity.Activity.OnDesignChosen: requires `which < 4`. A larger index throws `ArrayIndexOutOfBoundsException` in `MAPPING[which]`, and the dialog's four entries never produce one. The same holds for QuickBatteryActivity.Activity.OnDesignChosen.
- BatteryService.Percentage: states the exact quotient only for raw levels up to 21474836, where `rawlevel * 100` fits an `int`. Beyond that the function still computes the wrapped Java value, and `PercentageWraps` shows one case.
- WidgetPreview.DesignDescription: a stored design outside 0-3 makes `designNames[MAPPING[design]]` throw. The model gives `None` (no description) instead.
- BatteryWidget.UpdateWidgets: with an activity name stored but its package or class missing, Java throws `NullPointerException` while building the tap intent (BatteryWidget.java:98-101). The model returns None. `BatteryService.BatteryService.OnBatteryReceive` still records the redraw request, so the crash of the receiver is not modelled.
- BatteryService.BatteryService.OnStart: a null start intent throws at `intent.getExtras()` (BatteryService.java:125). The model reports it as `thrown` and stops there. What the platform then does with the service is not modelled.
- `mFeaturedActivities` belongs to the activity in Java and to the adapter in the model, because only the adapter's constructor fills it.
