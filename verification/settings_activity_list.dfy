/**
  The tap-target picker (`SettingsActivityList`): a two-group list of
  activities, the featured ones first and then every launcher activity that
  is not featured, and the item click that stores the chosen activity.
 */
module SettingsActivityList {
  import opened JavaText
  import opened Platform
  import BatteryWidget

  /** One `"package/class"` entry of the `featured_activities` array, parsed. */
  datatype FeaturedActivity = FeaturedActivity(className: string, packageName: string)

  /** The parts of a resolved activity the picker uses; `displayName` is what `loadLabel` yields. */
  datatype ActivityInfo = ActivityInfo(packageName: string, name: string, displayName: string)

  datatype GroupTitle = Recommended | Other

  datatype Group = Group(title: GroupTitle, children: seq<ActivityInfo>)

  // ---------------------------------------------------------------------
  // Featured entries

  /**
    `TextUtils.split(entry, "/")`, then `params[1]` as class and `params[0]`
    as package; None where Java would throw. The package is the text before
    the first slash and the class the text up to the next one.
   */
  function ParseEntry(entry: string): (f: Option<FeaturedActivity>)
    ensures f.Some? <==> '/' in entry
    ensures f.Some? ==> '/' !in f.value.packageName && '/' !in f.value.className
    ensures f.Some? ==>
      var prefix := f.value.packageName + "/" + f.value.className;
      |prefix| <= |entry| && entry[..|prefix|] == prefix
    ensures f.Some? ==>
      var n := |f.value.packageName| + 1 + |f.value.className|;
      n == |entry| || entry[n] == '/'
  {
    var params := TextSplit(entry, '/');
    if |params| < 2 then
      if entry != [] then SplitCount(entry, '/'); None else None
    else
      SplitCount(entry, '/');
      SplitPiecesFree(entry, '/');
      SplitJoin(entry, '/');
      JoinPrefix(params, '/');
      Some(FeaturedActivity(params[1], params[0]))
  }

  /** The first two pieces, with the separator between them, begin the joined text, and a separator or the end follows. */
  lemma JoinPrefix(parts: seq<string>, sep: char)
    requires |parts| >= 2
    ensures var prefix := parts[0] + [sep] + parts[1];
      |prefix| <= |Join(parts, sep)| && Join(parts, sep)[..|prefix|] == prefix
    ensures var n := |parts[0]| + 1 + |parts[1]|;
      (|parts| == 2 <==> n == |Join(parts, sep)|)
      && (|parts| > 2 ==> n < |Join(parts, sep)| && Join(parts, sep)[n] == sep)
  {
    var prefix := parts[0] + [sep] + parts[1];
    var rest := Join(parts[1..], sep);
    assert Join(parts, sep) == parts[0] + [sep] + rest;
    if |parts| == 2 {
      assert rest == parts[1];
    } else {
      assert rest == parts[1] + [sep] + Join(parts[2..], sep) by { assert parts[1..][1..] == parts[2..]; }
    }
    assert Join(parts, sep)[..|prefix|] == prefix;
  }

  /** `"p/c"` parses to package p and class c. */
  lemma ParseEntryPair(p: string, c: string)
    requires '/' !in p && '/' !in c
    ensures ParseEntry(p + "/" + c) == Some(FeaturedActivity(c, p))
  {
    SplitAtFirst(p, c, '/');
    SplitWithoutSeparator(c, '/');
  }

  function ClassNames(featured: seq<FeaturedActivity>): (names: seq<string>)
    ensures |names| == |featured|
    ensures forall i :: 0 <= i < |featured| ==> names[i] == featured[i].className
  {
    seq(|featured|, i requires 0 <= i < |featured| => featured[i].className)
  }

  datatype FeaturedTable = FeaturedTable(activities: seq<FeaturedActivity>, classNames: seq<string>)

  /** The adapter constructor's loop: parse every entry, collecting the activities and their class names. */
  method ParseFeaturedActivities(entries: seq<string>) returns (r: Result<FeaturedTable, nat>)
    ensures r.Success? <==> forall i :: 0 <= i < |entries| ==> '/' in entries[i]
    ensures r.Success? ==>
      && |r.value.activities| == |entries|
      && (forall i :: 0 <= i < |entries| ==> ParseEntry(entries[i]) == Some(r.value.activities[i]))
      && r.value.classNames == ClassNames(r.value.activities)
    ensures r.Failure? ==>
      r.error < |entries| && ParseEntry(entries[r.error]).None?
      && forall i :: 0 <= i < r.error ==> ParseEntry(entries[i]).Some?
  {
    var activities: seq<FeaturedActivity> := [];
    var classNames: seq<string> := [];
    for i := 0 to |entries|
      invariant |activities| == i
      invariant forall j :: 0 <= j < i ==> ParseEntry(entries[j]) == Some(activities[j])
      invariant classNames == ClassNames(activities)
    {
      var params := TextSplit(entries[i], '/');
      if |params| < 2 {
        assert ParseEntry(entries[i]).None?;
        return Failure(i);
      }
      var activity := FeaturedActivity(params[1], params[0]);
      activities := activities + [activity];
      classNames := classNames + [activity.className];
    }
    r := Success(FeaturedTable(activities, classNames));
  }

  // ---------------------------------------------------------------------
  // The search dictionary (Arrays.sort, Arrays.binarySearch)

  /** Puts `x` before the first element it does not exceed. */
  function Insert(s: seq<string>, x: string): seq<string>
  {
    if s == [] then [x]
    else if LessEq(x, s[0]) then [x] + s
    else [s[0]] + Insert(s[1..], x)
  }

  /** Insertion adds exactly the inserted element. */
  lemma {:induction false} InsertMultiset(s: seq<string>, x: string)
    ensures multiset(Insert(s, x)) == multiset(s) + multiset{x}
    decreases |s|
  {
    if s != [] && !LessEq(x, s[0]) {
      InsertMultiset(s[1..], x);
      assert s == [s[0]] + s[1..];
    }
  }

  /** A sorted list stays sorted under an element no greater than its head. */
  lemma SortedCons(a: string, t: seq<string>)
    requires Sorted(t)
    requires t != [] ==> LessEq(a, t[0])
    ensures Sorted([a] + t)
  {
    var u := [a] + t;
    forall i, j | 0 <= i < j < |u| ensures LessEq(u[i], u[j]) {
      if i == 0 && j > 1 {
        assert LessEq(t[0], t[j - 1]);
        if a != t[0] {
          if t[0] == t[j - 1] { } else { LessTransitive(a, t[0], t[j - 1]); }
        }
      } else if i > 0 {
        assert u[i] == t[i - 1] && u[j] == t[j - 1];
      }
    }
  }

  lemma {:induction false} InsertSorted(s: seq<string>, x: string)
    requires Sorted(s)
    ensures Sorted(Insert(s, x))
    ensures multiset(Insert(s, x)) == multiset(s) + multiset{x}
    decreases |s|
  {
    InsertMultiset(s, x);
    if s == [] {
    } else if LessEq(x, s[0]) {
      SortedCons(x, s);
    } else {
      var tail := s[1..];
      assert Sorted(tail) by {
        forall i, j | 0 <= i < j < |tail| ensures LessEq(tail[i], tail[j]) {
          assert tail[i] == s[i + 1] && tail[j] == s[j + 1];
        }
      }
      InsertSorted(tail, x);
      var rest := Insert(tail, x);
      LessTotal(x, s[0]);
      assert LessEq(s[0], rest[0]) by {
        if tail != [] && !LessEq(x, tail[0]) {
          assert rest[0] == tail[0] == s[1];
        }
      }
      SortedCons(s[0], rest);
    }
  }

  /** `Arrays.sort(mFeaturedClassNames)`: the same names, in `String.compareTo` order. */
  method SortClassNames(names: seq<string>) returns (sorted: seq<string>)
    ensures Sorted(sorted)
    ensures multiset(sorted) == multiset(names)
  {
    sorted := [];
    for i := 0 to |names|
      invariant Sorted(sorted)
      invariant multiset(sorted) == multiset(names[..i])
    {
      InsertSorted(sorted, names[i]);
      assert names[..i + 1] == names[..i] + [names[i]];
      sorted := Insert(sorted, names[i]);
    }
    assert names[..|names|] == names;
  }

  /**
    `Arrays.binarySearch`: the index of `key` when present, otherwise
    `-(insertion point) - 1`, so the result is negative exactly when absent.
   */
  method BinarySearch(a: seq<string>, key: string) returns (index: int)
    requires Sorted(a)
    ensures 0 <= index ==> index < |a| && a[index] == key
    ensures index < 0 ==>
      && key !in a
      && var point := -(index + 1);
      && 0 <= point <= |a|
      && (forall i :: 0 <= i < point ==> Less(a[i], key))
      && (forall i :: point <= i < |a| ==> Less(key, a[i]))
  {
    var low, high := 0, |a| - 1;
    while low <= high
      invariant 0 <= low <= high + 1 <= |a|
      invariant forall i :: 0 <= i < low ==> Less(a[i], key)
      invariant forall i :: high < i < |a| ==> Less(key, a[i])
    {
      var mid := (low + high) / 2;
      if Less(a[mid], key) {
        forall i | 0 <= i <= mid ensures Less(a[i], key) {
          if i < mid { LessEqLessTransitive(a[i], a[mid], key); }
        }
        low := mid + 1;
      } else if Less(key, a[mid]) {
        forall i | mid <= i < |a| ensures Less(key, a[i]) {
          if i > mid { LessLessEqTransitive(key, a[mid], a[i]); }
        }
        high := mid - 1;
      } else {
        LessTotal(a[mid], key);
        return mid;
      }
    }
    forall i | 0 <= i < |a| ensures a[i] != key {
      if i < low { LessAsymmetric(a[i], key); } else { LessAsymmetric(key, a[i]); }
    }
    index := -(low + 1);
  }

  // ---------------------------------------------------------------------
  // The two groups (CollectActivitiesTask.doInBackground)

  /** The launcher activities whose class name is not featured, in their original order. */
  function OtherActivities(launcher: seq<ActivityInfo>, featuredClassNames: seq<string>): (others: seq<ActivityInfo>)
    ensures |others| <= |launcher|
    ensures forall x :: x in others ==> x in launcher && x.name !in featuredClassNames
  {
    if launcher == [] then []
    else
      var last := launcher[|launcher| - 1];
      OtherActivities(launcher[..|launcher| - 1], featuredClassNames)
        + (if last.name in featuredClassNames then [] else [last])
  }

  /** An activity is listed under "other" iff it is a launcher activity whose class name is featured under no package. */
  lemma {:induction false} OtherActivitiesMembers(launcher: seq<ActivityInfo>, featuredClassNames: seq<string>, x: ActivityInfo)
    ensures x in OtherActivities(launcher, featuredClassNames) <==> x in launcher && x.name !in featuredClassNames
    decreases |launcher|
  {
    if launcher != [] {
      var init := launcher[..|launcher| - 1];
      OtherActivitiesMembers(init, featuredClassNames, x);
      assert launcher == init + [launcher[|launcher| - 1]];
    }
  }

  /** Only which class names are featured matters, not their order or multiplicity. */
  lemma {:induction false} OtherActivitiesByMembership(launcher: seq<ActivityInfo>, names1: seq<string>, names2: seq<string>)
    requires forall k :: k in names1 <==> k in names2
    ensures OtherActivities(launcher, names1) == OtherActivities(launcher, names2)
    decreases |launcher|
  {
    if launcher != [] {
      OtherActivitiesByMembership(launcher[..|launcher| - 1], names1, names2);
    }
  }

  /** The "other" group's loop: keep each launcher item whose class name the dictionary lacks. */
  method CollectOther(launcher: seq<ActivityInfo>, dictionary: seq<string>) returns (children: seq<ActivityInfo>)
    requires Sorted(dictionary)
    ensures children == OtherActivities(launcher, dictionary)
  {
    children := [];
    for i := 0 to |launcher|
      invariant children == OtherActivities(launcher[..i], dictionary)
    {
      var item := launcher[i];
      var index := BinarySearch(dictionary, item.name);
      assert launcher[..i + 1][..i] == launcher[..i];
      if index < 0 {
        children := children + [item];
      }
    }
    assert launcher[..|launcher|] == launcher;
  }

  /** The concatenation, in featured order, of what the package manager resolves for each featured activity. */
  function RecommendedActivities(featured: seq<FeaturedActivity>, resolve: (string, string) -> seq<ActivityInfo>)
    : (recommended: seq<ActivityInfo>)
    ensures forall i, x :: (0 <= i < |featured| && x in resolve(featured[i].packageName, featured[i].className))
                           ==> x in recommended
  {
    if featured == [] then []
    else
      var last := featured[|featured| - 1];
      RecommendedActivities(featured[..|featured| - 1], resolve) + resolve(last.packageName, last.className)
  }

  /** Every recommended item was resolved from some featured entry, and every resolved item is recommended. */
  lemma {:induction false} RecommendedMembers(featured: seq<FeaturedActivity>, resolve: (string, string) -> seq<ActivityInfo>, x: ActivityInfo)
    ensures x in RecommendedActivities(featured, resolve) <==>
      exists i :: 0 <= i < |featured| && x in resolve(featured[i].packageName, featured[i].className)
    decreases |featured|
  {
    if featured != [] {
      var init := featured[..|featured| - 1];
      RecommendedMembers(init, resolve, x);
      if x in RecommendedActivities(featured, resolve) {
        if x in RecommendedActivities(init, resolve) {
          var i :| 0 <= i < |init| && x in resolve(init[i].packageName, init[i].className);
          assert featured[i] == init[i];
        }
      } else {
        forall i | 0 <= i < |featured| ensures x !in resolve(featured[i].packageName, featured[i].className) {
          if i < |init| { assert featured[i] == init[i]; }
        }
      }
    }
  }

  /** The "recommended" group's loops: for each featured activity, append every activity it resolves to. */
  method CollectRecommended(featured: seq<FeaturedActivity>, resolve: (string, string) -> seq<ActivityInfo>)
    returns (children: seq<ActivityInfo>)
    ensures children == RecommendedActivities(featured, resolve)
  {
    children := [];
    for i := 0 to |featured|
      invariant children == RecommendedActivities(featured[..i], resolve)
    {
      var activity := featured[i];
      var infos := resolve(activity.packageName, activity.className);
      ghost var before := children;
      for j := 0 to |infos|
        invariant children == before + infos[..j]
      {
        children := children + [infos[j]];
        assert infos[..j + 1] == infos[..j] + [infos[j]];
      }
      assert infos[..|infos|] == infos;
      assert featured[..i + 1][..i] == featured[..i];
    }
    assert featured[..|featured|] == featured;
  }

  /** The groups `publishProgress` hands over: each only when non-empty, recommended first. */
  function PublishedGroups(recommended: seq<ActivityInfo>, other: seq<ActivityInfo>): (groups: seq<Group>)
    ensures forall g :: g in groups ==> |g.children| > 0
    ensures |groups| <= 2
    ensures |groups| > 0 && groups[0].title == Other ==> |recommended| == 0
  {
    (if |recommended| > 0 then [Group(Recommended, recommended)] else [])
      + (if |other| > 0 then [Group(Other, other)] else [])
  }

  /** No empty group is ever shown, and "recommended" precedes "other". */
  lemma PublishedGroupsShape(recommended: seq<ActivityInfo>, other: seq<ActivityInfo>)
    ensures var gs := PublishedGroups(recommended, other);
      && (forall g :: g in gs ==> |g.children| > 0)
      && |gs| == (if |recommended| > 0 then 1 else 0) + (if |other| > 0 then 1 else 0)
      && (Group(Recommended, recommended) in gs <==> |recommended| > 0)
      && (Group(Other, other) in gs <==> |other| > 0)
      && (|gs| == 2 ==> gs[0].title == Recommended && gs[1].title == Other)
  {
  }

  /** `doInBackground`: build both groups and publish the non-empty ones, in order. */
  method DoInBackground(
    featured: seq<FeaturedActivity>, dictionary: seq<string>,
    launcher: seq<ActivityInfo>, resolve: (string, string) -> seq<ActivityInfo>)
    returns (published: seq<Group>)
    requires Sorted(dictionary)
    ensures published ==
      PublishedGroups(RecommendedActivities(featured, resolve), OtherActivities(launcher, dictionary))
  {
    published := [];
    var recommended := CollectRecommended(featured, resolve);
    if |recommended| > 0 {
      published := published + [Group(Recommended, recommended)];
    }
    var other := CollectOther(launcher, dictionary);
    if |other| > 0 {
      published := published + [Group(Other, other)];
    }
  }

  // ---------------------------------------------------------------------
  // The adapter

  class ExpandableListAdapter {
    /** `mGroups` */
    var groups: seq<Group>
    /** `mFeaturedActivities` */
    var featured: seq<FeaturedActivity>
    /** `mFeaturedClassNames`: the search dictionary. */
    var featuredClassNames: seq<string>

    ghost predicate Valid()
      reads this
    {
      Sorted(featuredClassNames) && multiset(featuredClassNames) == multiset(ClassNames(featured))
    }

    /** Parses the featured entries (each must hold a slash, or Java throws) and sorts their class names. */
    constructor (entries: seq<string>)
      requires forall i :: 0 <= i < |entries| ==> '/' in entries[i]
      ensures Valid()
      ensures groups == []
      ensures |featured| == |entries|
      ensures forall i :: 0 <= i < |entries| ==> ParseEntry(entries[i]) == Some(featured[i])
    {
      var r := ParseFeaturedActivities(entries);
      var sorted := SortClassNames(r.value.classNames);
      groups := [];
      featured := r.value.activities;
      featuredClassNames := sorted;
    }

    /** The dictionary answers membership exactly as the featured class names would. */
    lemma DictionaryIsSound(name: string)
      requires Valid()
      ensures name in featuredClassNames <==> name in ClassNames(featured)
    {
      assert name in featuredClassNames <==> name in multiset(featuredClassNames);
      assert name in ClassNames(featured) <==> name in multiset(ClassNames(featured));
    }

    /** `onProgressUpdate`: append a published group. */
    method OnProgressUpdate(group: Group)
      modifies this
      ensures groups == old(groups) + [group]
      ensures featured == old(featured) && featuredClassNames == old(featuredClassNames)
    {
      groups := groups + [group];
    }

    /** The whole collection task, background part then each progress update in order. */
    method CollectActivities(launcher: seq<ActivityInfo>, resolve: (string, string) -> seq<ActivityInfo>)
      requires Valid()
      modifies this
      ensures Valid()
      ensures groups == old(groups) +
        PublishedGroups(RecommendedActivities(featured, resolve), OtherActivities(launcher, ClassNames(featured)))
      ensures featured == old(featured) && featuredClassNames == old(featuredClassNames)
    {
      var published := DoInBackground(featured, featuredClassNames, launcher, resolve);
      forall k ensures k in featuredClassNames <==> k in ClassNames(featured) {
        DictionaryIsSound(k);
      }
      OtherActivitiesByMembership(launcher, featuredClassNames, ClassNames(featured));
      for i := 0 to |published|
        invariant featured == old(featured) && featuredClassNames == old(featuredClassNames)
        invariant groups == old(groups) + published[..i]
      {
        OnProgressUpdate(published[i]);
        assert published[..i + 1] == published[..i] + [published[i]];
      }
      assert published[..|published|] == published;
    }

    function GetGroupCount(): nat
      reads this
    {
      |groups|
    }

    function GetChildrenCount(groupPosition: int): nat
      reads this
      requires 0 <= groupPosition < |groups|
    {
      |groups[groupPosition].children|
    }

    function GetChild(groupPosition: int, childPosition: int): ActivityInfo
      reads this
      requires 0 <= groupPosition < |groups|
      requires 0 <= childPosition < |groups[groupPosition].children|
    {
      groups[groupPosition].children[childPosition]
    }

    /** What the list reads back after the groups were published into an empty adapter: "recommended" first, "other" last, each child in order. */
    lemma ListedGroups(recommended: seq<ActivityInfo>, other: seq<ActivityInfo>)
      requires groups == PublishedGroups(recommended, other)
      ensures GetGroupCount() == (if |recommended| > 0 then 1 else 0) + (if |other| > 0 then 1 else 0)
      ensures forall g :: 0 <= g < GetGroupCount() ==> GetChildrenCount(g) > 0
      ensures |recommended| > 0 ==>
        GetChildrenCount(0) == |recommended| && forall c :: 0 <= c < |recommended| ==> GetChild(0, c) == recommended[c]
      ensures |other| > 0 ==>
        GetChildrenCount(GetGroupCount() - 1) == |other|
        && forall c :: 0 <= c < |other| ==> GetChild(GetGroupCount() - 1, c) == other[c]
    {
      PublishedGroupsShape(recommended, other);
    }
  }

  /** `getGroupId` */
  function GroupId(groupPosition: int): int { groupPosition }

  /** `getChildId` */
  function ChildId(groupPosition: int, childPosition: int): int { childPosition }

  // ---------------------------------------------------------------------
  // Choosing an item

  /** The item click: store class, package and label in one commit. */
  function SelectItem(prefs: Preferences, info: ActivityInfo): (p: Preferences)
    ensures PrefString(p, BatteryWidget.PrefClassName) == Some(info.name)
    ensures PrefString(p, BatteryWidget.PrefPackageName) == Some(info.packageName)
    ensures PrefString(p, BatteryWidget.PrefActivityName) == Some(info.displayName)
    ensures forall k :: (k in prefs && k !in {BatteryWidget.PrefClassName, BatteryWidget.PrefPackageName, BatteryWidget.PrefActivityName})
                        ==> k in p && p[k] == prefs[k]
    ensures p.Keys == prefs.Keys + {BatteryWidget.PrefClassName, BatteryWidget.PrefPackageName, BatteryWidget.PrefActivityName}
  {
    prefs[BatteryWidget.PrefClassName := StringPref(info.name)]
         [BatteryWidget.PrefPackageName := StringPref(info.packageName)]
         [BatteryWidget.PrefActivityName := StringPref(info.displayName)]
  }

  /** After a choice the widget's tap launches exactly the chosen activity. */
  lemma SelectedItemIsTapTarget(prefs: Preferences, info: ActivityInfo)
    ensures BatteryWidget.TapActionFor(SelectItem(prefs, info))
      == Some(BatteryWidget.LaunchComponent(info.packageName, info.name))
  {
  }
}
