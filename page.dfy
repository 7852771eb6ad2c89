/** The logic of the main page: grouping an exercise's history by day, picking
    the two sessions to compare, numbering the sets of a day, and the guards
    and record updates of the add-folder, add-exercise and edit-set forms.
    Day labels come from an abstract `dayOf` and are ordered by an abstract
    `rank`, standing for the date formatting and re-parsing of the page. */
module Page {
  import opened Wrappers
  import opened Seqs
  import Text
  import opened Workouts
  import Comparison

  /** The day label of a set. */
  function DayOfSet(dayOf: int -> string): WorkoutSet -> string {
    (w: WorkoutSet) => dayOf(w.date)
  }

  /** What the `groupedSets` reduce builds: an object whose keys, in
      insertion order, are `keys`, and whose entry for a day holds the sets
      of that day in input order. Every set's day is a key, and the keys are
      ordered by the first set carrying them. */
  ghost predicate IsGrouping(sets: seq<WorkoutSet>, dayOf: int -> string, keys: seq<string>, groups: map<string, seq<WorkoutSet>>) {
    && Distinct(keys)
    && (forall d :: d in keys ==> d in groups)
    && (forall d :: d in groups ==> d in keys)
    && (forall d :: d in groups ==> groups[d] == Filter(sets, KeyIs(DayOfSet(dayOf), d)))
    && (forall w :: w in sets ==> dayOf(w.date) in groups)
    && (forall i :: 0 <= i < |keys| ==> 0 <= IndexOfKey(sets, DayOfSet(dayOf), keys[i]) < |sets|)
    && (forall i, j :: 0 <= i < j < |keys| ==>
          IndexOfKey(sets, DayOfSet(dayOf), keys[i]) < IndexOfKey(sets, DayOfSet(dayOf), keys[j]))
  }

  /** The object after the reduce has seen `sets[..n]`. */
  ghost predicate GroupedPrefix(sets: seq<WorkoutSet>, day: WorkoutSet -> string, n: nat, keys: seq<string>, groups: map<string, seq<WorkoutSet>>)
    requires n <= |sets|
  {
    && Distinct(keys)
    && (forall d :: d in keys ==> d in groups)
    && (forall d :: d in groups ==> d in keys)
    && (forall d :: d in groups ==> groups[d] == Filter(sets[..n], KeyIs(day, d)))
    && (forall i :: 0 <= i < n ==> day(sets[i]) in groups)
    && (forall i :: 0 <= i < |keys| ==> 0 <= IndexOfKey(sets, day, keys[i]) < n)
    && (forall i, j :: 0 <= i < j < |keys| ==> IndexOfKey(sets, day, keys[i]) < IndexOfKey(sets, day, keys[j]))
  }

  /** The `groupedSets` reduce: one pass that creates a day's entry on its
      first set and pushes every set onto its day's entry. */
  method GroupByDay(sets: seq<WorkoutSet>, dayOf: int -> string) returns (keys: seq<string>, groups: map<string, seq<WorkoutSet>>)
    ensures IsGrouping(sets, dayOf, keys, groups)
  {
    var day := DayOfSet(dayOf);
    keys, groups := [], map[];
    var n := 0;
    while n < |sets|
      invariant 0 <= n <= |sets|
      invariant GroupedPrefix(sets, day, n, keys, groups)
    {
      var w := sets[n];
      var d := day(w);
      if d !in groups {
        StartDay(sets, day, n, keys, groups);
        keys := keys + [d];
        groups := groups[d := [w]];
      } else {
        PushOntoDay(sets, day, n, keys, groups);
        groups := groups[d := groups[d] + [w]];
      }
      n := n + 1;
    }
    GroupedAll(sets, dayOf, keys, groups);
  }

  /** Pushing set `n` onto its existing day's entry. */
  lemma PushOntoDay(sets: seq<WorkoutSet>, day: WorkoutSet -> string, n: nat, keys: seq<string>, groups: map<string, seq<WorkoutSet>>)
    requires n < |sets| && GroupedPrefix(sets, day, n, keys, groups)
    requires day(sets[n]) in groups
    ensures GroupedPrefix(sets, day, n + 1, keys, groups[day(sets[n]) := groups[day(sets[n])] + [sets[n]]])
  {
    var w, d := sets[n], day(sets[n]);
    var groups' := groups[d := groups[d] + [w]];
    PushOntoDayGroups(sets, day, n, groups);
    assert forall i :: 0 <= i < n + 1 ==> day(sets[i]) in groups';
  }

  /** The entries after pushing set `n` onto its day's entry. */
  lemma PushOntoDayGroups(sets: seq<WorkoutSet>, day: WorkoutSet -> string, n: nat, groups: map<string, seq<WorkoutSet>>)
    requires n < |sets|
    requires forall d :: d in groups ==> groups[d] == Filter(sets[..n], KeyIs(day, d))
    requires day(sets[n]) in groups
    ensures forall e :: e in groups[day(sets[n]) := groups[day(sets[n])] + [sets[n]]] ==>
      groups[day(sets[n]) := groups[day(sets[n])] + [sets[n]]][e] == Filter(sets[..n + 1], KeyIs(day, e))
  {
    var w, d := sets[n], day(sets[n]);
    var groups' := groups[d := groups[d] + [w]];
    assert sets[..n + 1] == sets[..n] + [w];
    forall e | e in groups'
      ensures groups'[e] == Filter(sets[..n + 1], KeyIs(day, e))
    {
      FilterSnoc(sets[..n], w, KeyIs(day, e));
    }
  }

  /** Creating the entry of a day first seen at set `n`. */
  lemma StartDay(sets: seq<WorkoutSet>, day: WorkoutSet -> string, n: nat, keys: seq<string>, groups: map<string, seq<WorkoutSet>>)
    requires n < |sets| && GroupedPrefix(sets, day, n, keys, groups)
    requires day(sets[n]) !in groups
    ensures GroupedPrefix(sets, day, n + 1, keys + [day(sets[n])], groups[day(sets[n]) := [sets[n]]])
  {
    var w, d := sets[n], day(sets[n]);
    var keys', groups' := keys + [d], groups[d := [w]];
    assert forall i :: 0 <= i < n ==> day(sets[i]) != d;
    StartDayGroups(sets, day, n, groups);
    assert d !in keys;
    FirstDayIndex(sets, day, d, n);
    assert forall i :: 0 <= i < |keys| ==> IndexOfKey(sets, day, keys'[i]) < n;
    assert forall i :: 0 <= i < n + 1 ==> day(sets[i]) in groups';
  }

  /** The entries after creating the one of set `n`'s day, which no
      earlier set carries. */
  lemma StartDayGroups(sets: seq<WorkoutSet>, day: WorkoutSet -> string, n: nat, groups: map<string, seq<WorkoutSet>>)
    requires n < |sets|
    requires forall d :: d in groups ==> groups[d] == Filter(sets[..n], KeyIs(day, d))
    requires forall i :: 0 <= i < n ==> day(sets[i]) != day(sets[n])
    requires day(sets[n]) !in groups
    ensures forall e :: e in groups[day(sets[n]) := [sets[n]]] ==>
      groups[day(sets[n]) := [sets[n]]][e] == Filter(sets[..n + 1], KeyIs(day, e))
  {
    var w, d := sets[n], day(sets[n]);
    var groups' := groups[d := [w]];
    assert sets[..n + 1] == sets[..n] + [w];
    forall e | e in groups'
      ensures groups'[e] == Filter(sets[..n + 1], KeyIs(day, e))
    {
      FilterSnoc(sets[..n], w, KeyIs(day, e));
      if e == d {
        NoneBefore(sets, day, n, d);
      }
    }
  }

  /** No set before `n` is on a day that has no entry yet. */
  lemma NoneBefore(sets: seq<WorkoutSet>, day: WorkoutSet -> string, n: nat, d: string)
    requires n <= |sets|
    requires forall i :: 0 <= i < n ==> day(sets[i]) != d
    ensures Filter(sets[..n], KeyIs(day, d)) == []
  {
    forall x | x in sets[..n] ensures !KeyIs(day, d)(x) {
      var i :| 0 <= i < n && sets[..n][i] == x;
    }
    FilterNone(sets[..n], KeyIs(day, d));
  }

  /** Having seen every set, the object is the grouping of `sets`. */
  lemma GroupedAll(sets: seq<WorkoutSet>, dayOf: int -> string, keys: seq<string>, groups: map<string, seq<WorkoutSet>>)
    requires GroupedPrefix(sets, DayOfSet(dayOf), |sets|, keys, groups)
    ensures IsGrouping(sets, dayOf, keys, groups)
  {
    assert sets[..|sets|] == sets;
    forall w | w in sets ensures dayOf(w.date) in groups {
      var i :| 0 <= i < |sets| && sets[i] == w;
      assert DayOfSet(dayOf)(sets[i]) in groups;
    }
  }

  /** A label that no set before index `n` carries, but set `n` does, is
      first found at `n`. */
  lemma FirstDayIndex(sets: seq<WorkoutSet>, day: WorkoutSet -> string, d: string, n: nat)
    requires n < |sets| && day(sets[n]) == d
    requires forall i :: 0 <= i < n ==> day(sets[i]) != d
    ensures IndexOfKey(sets, day, d) == n
  {
  }

  /** The days' groups, concatenated in key order: the list of sets as the
      page renders it, day after day. */
  function Rendered(keys: seq<string>, groups: map<string, seq<WorkoutSet>>): seq<WorkoutSet>
    requires forall d :: d in keys ==> d in groups
  {
    if keys == [] then [] else groups[keys[0]] + Rendered(keys[1..], groups)
  }

  lemma {:induction false} RenderedIsConcatGroups(sets: seq<WorkoutSet>, dayOf: int -> string, keys: seq<string>, groups: map<string, seq<WorkoutSet>>)
    requires forall d :: d in keys ==> d in groups
    requires forall d :: d in groups ==> groups[d] == Filter(sets, KeyIs(DayOfSet(dayOf), d))
    ensures Rendered(keys, groups) == ConcatGroups(sets, DayOfSet(dayOf), keys)
  {
    if keys != [] {
      RenderedIsConcatGroups(sets, dayOf, keys[1..], groups);
    }
  }

  /** Grouping partitions the sets: rendered day after day, every set
      appears exactly as often as in the input, and the groups together are
      as long as the input. */
  lemma GroupingPartitions(sets: seq<WorkoutSet>, dayOf: int -> string, keys: seq<string>, groups: map<string, seq<WorkoutSet>>)
    requires IsGrouping(sets, dayOf, keys, groups)
    ensures multiset(Rendered(keys, groups)) == multiset(sets)
    ensures |Rendered(keys, groups)| == |sets|
  {
    RenderedIsConcatGroups(sets, dayOf, keys, groups);
    ConcatGroupsPermutation(sets, DayOfSet(dayOf), keys);
  }

  /** A set lies in the group of its own day and in no other. */
  lemma SetInItsDayOnly(sets: seq<WorkoutSet>, dayOf: int -> string, keys: seq<string>, groups: map<string, seq<WorkoutSet>>, w: WorkoutSet, d: string)
    requires IsGrouping(sets, dayOf, keys, groups)
    requires w in sets && d in groups
    ensures w in groups[d] <==> d == dayOf(w.date)
  {
    FilterMembers(sets, KeyIs(DayOfSet(dayOf), d));
  }

  /** Within a day, sets keep their input order: a set that comes before
      another set of the same day in the input comes before it in the
      day's group too. */
  lemma GroupKeepsOrder(sets: seq<WorkoutSet>, dayOf: int -> string, keys: seq<string>, groups: map<string, seq<WorkoutSet>>, i: int, j: int)
    requires IsGrouping(sets, dayOf, keys, groups)
    requires 0 <= i < j < |sets| && dayOf(sets[i].date) == dayOf(sets[j].date)
    ensures var g := groups[dayOf(sets[i].date)];
      exists a, b :: 0 <= a < b < |g| && g[a] == sets[i] && g[b] == sets[j]
  {
    var d := dayOf(sets[i].date);
    assert sets[i] in sets;
    FilterKeepsOrder(sets, KeyIs(DayOfSet(dayOf), d), i, j);
  }

  /** The two sessions the comparison card is given. */
  datatype Sessions = Sessions(latest: seq<WorkoutSet>, previous: seq<WorkoutSet>)

  /** `sessionDates`: the day labels sorted newest first, stably. */
  function SessionDates(keys: seq<string>, rank: string -> int): (r: seq<string>)
    ensures multiset(r) == multiset(keys) && |r| == |keys|
    ensures SortedDesc(r, rank)
    ensures forall i :: 0 <= i < |r| ==> r[i] in keys
    ensures forall k :: k in keys ==> k in r
  {
    var r := SortDesc(keys, rank);
    assert forall i :: 0 <= i < |r| ==> r[i] in multiset(keys);
    assert forall k :: k in keys ==> k in multiset(r);
    r
  }

  /** Distinct day labels stay distinct once sorted. */
  lemma SessionDatesDistinct(keys: seq<string>, rank: string -> int)
    requires Distinct(keys)
    ensures Distinct(SessionDates(keys, rank))
  {
    PermutationKeepsDistinct(keys, SessionDates(keys, rank));
  }

  /** `latestSession` and `previousSession`: the groups of the first and
      second sorted labels, or `[]` when there is no such label or it is the
      empty string, which JavaScript treats as false. */
  function SelectSessions(keys: seq<string>, groups: map<string, seq<WorkoutSet>>, rank: string -> int): (r: Sessions)
    requires forall d :: d in keys ==> d in groups
    ensures |keys| == 0 ==> r.latest == []
    ensures |keys| <= 1 ==> r.previous == []
    ensures |keys| >= 1 && SessionDates(keys, rank)[0] != "" ==> r.latest == groups[SessionDates(keys, rank)[0]]
    ensures |keys| >= 2 && SessionDates(keys, rank)[1] != "" ==> r.previous == groups[SessionDates(keys, rank)[1]]
    ensures |keys| >= 1 && SessionDates(keys, rank)[0] == "" ==> r.latest == []
    ensures |keys| >= 2 && SessionDates(keys, rank)[1] == "" ==> r.previous == []
  {
    var dates := SessionDates(keys, rank);
    assert forall i :: 0 <= i < |dates| ==> dates[i] in multiset(keys);
    Sessions(
      if |dates| > 0 && dates[0] != "" then groups[dates[0]] else [],
      if |dates| > 1 && dates[1] != "" then groups[dates[1]] else [])
  }

  /** The latest session is the group of a newest day. */
  lemma LatestIsNewest(keys: seq<string>, groups: map<string, seq<WorkoutSet>>, rank: string -> int)
    requires forall d :: d in keys ==> d in groups
    requires |keys| >= 1 && SessionDates(keys, rank)[0] != ""
    ensures var d := SessionDates(keys, rank)[0];
      && d in keys
      && SelectSessions(keys, groups, rank).latest == groups[d]
      && forall k :: k in keys ==> rank(k) <= rank(d)
  {
    var dates := SessionDates(keys, rank);
    forall k | k in keys ensures rank(k) <= rank(dates[0]) {
      var i :| 0 <= i < |dates| && dates[i] == k;
    }
  }

  /** With distinct day labels, the previous session is the group of
      another day, newest among all days but the latest. */
  lemma PreviousIsNextNewest(keys: seq<string>, groups: map<string, seq<WorkoutSet>>, rank: string -> int)
    requires forall d :: d in keys ==> d in groups
    requires Distinct(keys)
    requires |keys| >= 2 && SessionDates(keys, rank)[1] != ""
    ensures var d, e := SessionDates(keys, rank)[0], SessionDates(keys, rank)[1];
      && e in keys && e != d
      && SelectSessions(keys, groups, rank).previous == groups[e]
      && forall k :: k in keys && k != d ==> rank(k) <= rank(e)
  {
    var dates := SessionDates(keys, rank);
    SessionDatesDistinct(keys, rank);
    forall k | k in keys && k != dates[0] ensures rank(k) <= rank(dates[1]) {
      var i :| 0 <= i < |dates| && dates[i] == k;
    }
  }

  /** A non-empty history with real day labels always shows the comparison
      card, because the latest session then holds at least one set. */
  lemma ComparisonShownForNonEmptyHistory(sets: seq<WorkoutSet>, dayOf: int -> string, keys: seq<string>, groups: map<string, seq<WorkoutSet>>, rank: string -> int)
    requires IsGrouping(sets, dayOf, keys, groups)
    requires |sets| > 0
    requires forall w :: w in sets ==> dayOf(w.date) != ""
    ensures Comparison.Compare(SelectSessions(keys, groups, rank).latest, SelectSessions(keys, groups, rank).previous).Some?
  {
    assert sets[0] in sets;
    assert |keys| >= 1;
    var dates := SessionDates(keys, rank);
    var d := dates[0];
    assert d in multiset(keys);
    var i :| 0 <= i < |keys| && keys[i] == d;
    var j := IndexOfKey(sets, DayOfSet(dayOf), d);
    assert DayOfSet(dayOf)(sets[j]) == d;
    FilterMembers(sets, KeyIs(DayOfSet(dayOf), d));
    assert sets[j] in groups[d];
  }

  /** The number shown beside a set: the sets of a day count down from
      the day's size to 1. */
  function SetNumber(count: int, setIndex: int): (r: int)
    requires 0 <= setIndex < count
    ensures 1 <= r <= count
    ensures setIndex == 0 <==> r == count
    ensures setIndex == count - 1 <==> r == 1
  {
    count - setIndex
  }

  /** Later sets of a day get smaller numbers, so no two share one. */
  lemma SetNumbersDescending(count: int, i: int, j: int)
    requires 0 <= i < j < count
    ensures SetNumber(count, i) > SetNumber(count, j)
  {
  }

  // ---------------------------------------------------------------------
  // Forms.

  /** `handleAddFolder`'s guard: a folder is added only under a name that
      is not blank, and both name and description are trimmed. */
  function FolderToAdd(name: string, description: string): (r: Option<(string, string)>)
    ensures r.None? <==> Text.AllSpace(name)
    ensures r.Some? ==> r.value.0 == Text.Trim(name) && r.value.1 == Text.Trim(description)
    ensures r.Some? ==> r.value.0 != [] && !Text.IsSpace(r.value.0[0]) && !Text.IsSpace(r.value.0[|r.value.0| - 1])
  {
    Text.TrimEmpty(name);
    if Text.Trim(name) != [] then Some((Text.Trim(name), Text.Trim(description))) else None
  }

  /** `handleAddExercise`'s choice: the trimmed custom name when it is not
      blank, else the popular pick when one is made, else nothing. */
  function ExerciseToAdd(custom: string, popular: string): (r: Option<string>)
    ensures r.None? <==> Text.AllSpace(custom) && popular == []
    ensures !Text.AllSpace(custom) ==> r == Some(Text.Trim(custom))
    ensures Text.AllSpace(custom) && popular != [] ==> r == Some(popular)
  {
    Text.TrimEmpty(custom);
    var t := Text.Trim(custom);
    if t != [] then Some(t) else if popular != [] then Some(popular) else None
  }

  /** `handleAddFolder` against the store. */
  method HandleAddFolder(store: Store, name: string, description: string, id: string)
    requires store.Valid()
    requires forall f :: f in store.folders ==> f.id != id
    modifies store
    ensures store.Valid()
    ensures Text.AllSpace(name) ==> store.folders == old(store.folders)
    ensures !Text.AllSpace(name) ==>
      store.folders == old(store.folders) + [Folder(id, Text.Trim(name), Text.Trim(description), [])]
    ensures store.workouts == old(store.workouts)
  {
    var toAdd := FolderToAdd(name, description);
    if toAdd.Some? {
      store.AddFolder(toAdd.value.0, toAdd.value.1, id);
    }
  }

  /** `handleAddExercise` against the store. */
  method HandleAddExercise(store: Store, folderId: string, custom: string, popular: string, exerciseId: string)
    requires store.Valid()
    modifies store
    ensures store.Valid()
    ensures Text.AllSpace(custom) && popular == [] ==> store.folders == old(store.folders)
    ensures !Text.AllSpace(custom) ==>
      store.folders == AddExerciseIn(old(store.folders), folderId, Text.Trim(custom), exerciseId)
    ensures Text.AllSpace(custom) && popular != [] ==>
      store.folders == AddExerciseIn(old(store.folders), folderId, popular, exerciseId)
    ensures store.workouts == old(store.workouts)
  {
    var toAdd := ExerciseToAdd(custom, popular);
    if toAdd.Some? {
      store.AddExerciseToFolder(folderId, toAdd.value, exerciseId);
    }
  }

  /** `handleSave`: the set with weight, reps, notes and date overridden. */
  function EditedSet(s: WorkoutSet, weight: real, reps: int, notes: string, date: int): (r: WorkoutSet)
    ensures r.id == s.id && r.exerciseId == s.exerciseId && r.exerciseName == s.exerciseName
    ensures r.weight == weight && r.reps == reps && r.notes == notes && r.date == date
  {
    s.(weight := weight, reps := reps, notes := notes, date := date)
  }

  /** Saving an edit of a stored set changes that entry alone and keeps the
      id, exercise and position of every entry. */
  lemma SaveEditKeepsIdentity(ws: seq<WorkoutSet>, s: WorkoutSet, weight: real, reps: int, notes: string, date: int)
    requires DistinctBy(ws, SetId)
    requires s in ws
    ensures var r := ReplaceById(ws, EditedSet(s, weight, reps, notes, date));
      && |r| == |ws|
      && (forall i :: 0 <= i < |ws| ==>
            r[i].id == ws[i].id && r[i].exerciseId == ws[i].exerciseId && r[i].exerciseName == ws[i].exerciseName)
      && (forall i :: 0 <= i < |ws| && ws[i] != s ==> r[i] == ws[i])
      && EditedSet(s, weight, reps, notes, date) in r
  {
    var u := EditedSet(s, weight, reps, notes, date);
    var r := ReplaceById(ws, u);
    var k :| 0 <= k < |ws| && ws[k] == s;
    assert forall i :: 0 <= i < |ws| && ws[i].id == s.id ==> i == k;
    assert r[k] == u;
  }
}
