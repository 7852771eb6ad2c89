/** The in-memory workout store of the `useWorkouts` hook: a list of logged
    sets and a list of folders, each folder holding exercises. Every mutation
    of the hook is one state transition of `Store`; every query is a function
    of the two lists. Dates are integer timestamps and ids are handed in by
    the caller, fresh. */
module Workouts {
  import opened Wrappers
  import opened Seqs
  import Text

  /** One logged set (src/lib/types.ts), with the `notes` the hook stores. */
  datatype WorkoutSet = WorkoutSet(
    id: string,
    exerciseId: string,
    exerciseName: string,
    weight: real,
    reps: int,
    date: int,
    notes: string)

  /** What the logging form hands to `addWorkout`: a set without id and date. */
  datatype NewWorkoutSet = NewWorkoutSet(
    exerciseId: string,
    exerciseName: string,
    weight: real,
    reps: int,
    notes: Option<string>)

  datatype Exercise = Exercise(id: string, name: string)

  datatype Folder = Folder(id: string, name: string, description: string, exercises: seq<Exercise>)

  // Keys and predicates the list operations are given.

  function SetId(w: WorkoutSet): string { w.id }
  function SetDate(w: WorkoutSet): int { w.date }
  function FolderId(f: Folder): string { f.id }
  function ExerciseId(e: Exercise): string { e.id }

  function OfExercise(exerciseId: string): WorkoutSet -> bool { (w: WorkoutSet) => w.exerciseId == exerciseId }
  function NotOfExercise(exerciseId: string): WorkoutSet -> bool { (w: WorkoutSet) => w.exerciseId != exerciseId }
  function NotSet(id: string): WorkoutSet -> bool { (w: WorkoutSet) => w.id != id }
  function NotFolder(id: string): Folder -> bool { (f: Folder) => f.id != id }
  function NotExercise(id: string): Exercise -> bool { (e: Exercise) => e.id != id }

  // ---------------------------------------------------------------------
  // The list transformations behind the mutations.

  /** The set `addWorkout` stores: the form's fields, the fresh id, the
      current time, and `notes || ''`. */
  function Stamped(w: NewWorkoutSet, id: string, now: int): WorkoutSet {
    WorkoutSet(id, w.exerciseId, w.exerciseName, w.weight, w.reps, now,
               if w.notes.Some? then w.notes.value else "")
  }

  /** Every set carrying the id of `updated` is replaced by it; the others
      stay in place. */
  function ReplaceById(ws: seq<WorkoutSet>, updated: WorkoutSet): (r: seq<WorkoutSet>)
    ensures |r| == |ws|
    ensures forall i :: 0 <= i < |ws| && ws[i].id == updated.id ==> r[i] == updated
    ensures forall i :: 0 <= i < |ws| && ws[i].id != updated.id ==> r[i] == ws[i]
  {
    if ws == [] then []
    else [if ws[0].id == updated.id then updated else ws[0]] + ReplaceById(ws[1..], updated)
  }

  /** Some exercise of the list has `name`, ignoring case. */
  predicate HasNamed(exercises: seq<Exercise>, name: string) {
    exists e :: e in exercises && Text.SameIgnoringCase(e.name, name)
  }

  /** What `addExerciseToFolder` does to the target folder. */
  function WithExercise(f: Folder, name: string, exerciseId: string): Folder {
    if HasNamed(f.exercises, name) then f
    else f.(exercises := f.exercises + [Exercise(exerciseId, name)])
  }

  /** The folder with id `folderId` gets the exercise added; the other
      folders are kept as they are. */
  function AddExerciseIn(fs: seq<Folder>, folderId: string, name: string, exerciseId: string): (r: seq<Folder>)
    ensures |r| == |fs|
    ensures forall i :: 0 <= i < |fs| && fs[i].id != folderId ==> r[i] == fs[i]
    ensures forall i :: 0 <= i < |fs| && fs[i].id == folderId && HasNamed(fs[i].exercises, name) ==> r[i] == fs[i]
    ensures forall i :: 0 <= i < |fs| && fs[i].id == folderId && !HasNamed(fs[i].exercises, name) ==>
              r[i] == fs[i].(exercises := fs[i].exercises + [Exercise(exerciseId, name)])
  {
    if fs == [] then []
    else
      [if fs[0].id == folderId then WithExercise(fs[0], name, exerciseId) else fs[0]]
        + AddExerciseIn(fs[1..], folderId, name, exerciseId)
  }

  /** The folder with id `folderId` loses the exercise; the other folders
      are kept as they are. */
  function RemoveExerciseIn(fs: seq<Folder>, folderId: string, exerciseId: string): (r: seq<Folder>)
    ensures |r| == |fs|
    ensures forall i :: 0 <= i < |fs| && fs[i].id != folderId ==> r[i] == fs[i]
    ensures forall i :: 0 <= i < |fs| && fs[i].id == folderId ==>
              r[i] == fs[i].(exercises := Filter(fs[i].exercises, NotExercise(exerciseId)))
  {
    if fs == [] then []
    else
      [if fs[0].id == folderId then fs[0].(exercises := Filter(fs[0].exercises, NotExercise(exerciseId))) else fs[0]]
        + RemoveExerciseIn(fs[1..], folderId, exerciseId)
  }

  /** Some folder has the id. */
  predicate HasFolder(fs: seq<Folder>, folderId: string) {
    exists f :: f in fs && f.id == folderId
  }

  /** Adding to a folder id no folder has changes nothing. */
  lemma AddExerciseToMissingFolder(fs: seq<Folder>, folderId: string, name: string, exerciseId: string)
    requires !HasFolder(fs, folderId)
    ensures AddExerciseIn(fs, folderId, name, exerciseId) == fs
  {
    var r := AddExerciseIn(fs, folderId, name, exerciseId);
    forall i | 0 <= i < |fs| ensures r[i] == fs[i] {
      assert fs[i] in fs;
    }
  }

  /** Adding the same name twice, in any letter case, adds it once. */
  lemma AddExerciseTwice(fs: seq<Folder>, folderId: string, name: string, again: string, id1: string, id2: string)
    requires Text.SameIgnoringCase(name, again)
    ensures AddExerciseIn(AddExerciseIn(fs, folderId, name, id1), folderId, again, id2)
         == AddExerciseIn(fs, folderId, name, id1)
  {
    var r1 := AddExerciseIn(fs, folderId, name, id1);
    var r2 := AddExerciseIn(r1, folderId, again, id2);
    forall i | 0 <= i < |fs| ensures r2[i] == r1[i] {
      if fs[i].id == folderId {
        if HasNamed(fs[i].exercises, name) {
          var e :| e in fs[i].exercises && Text.SameIgnoringCase(e.name, name);
          assert Text.SameIgnoringCase(e.name, again);
        } else {
          var e := Exercise(id1, name);
          assert e in r1[i].exercises;
          assert Text.SameIgnoringCase(e.name, again);
        }
      }
    }
  }

  // ---------------------------------------------------------------------
  // The store.

  class Store {
    var workouts: seq<WorkoutSet>
    var folders: seq<Folder>

    /** Ids are unique, since every id the hook hands out is fresh. */
    ghost predicate Valid()
      reads this
    {
      DistinctBy(workouts, SetId) && DistinctBy(folders, FolderId)
    }

    /** The store as loaded. */
    constructor (workouts0: seq<WorkoutSet>, folders0: seq<Folder>)
      requires DistinctBy(workouts0, SetId) && DistinctBy(folders0, FolderId)
      ensures Valid()
      ensures workouts == workouts0 && folders == folders0
    {
      workouts := workouts0;
      folders := folders0;
    }

    /** `addWorkout`: the new set goes in front. */
    method AddWorkout(w: NewWorkoutSet, id: string, now: int)
      requires Valid()
      requires w.weight >= 0.0 && w.reps >= 1
      requires forall x :: x in workouts ==> x.id != id
      modifies this
      ensures Valid()
      ensures workouts == [Stamped(w, id, now)] + old(workouts)
      ensures workouts[0].id == id && workouts[0].date == now
      ensures workouts[0].exerciseId == w.exerciseId && workouts[0].exerciseName == w.exerciseName
      ensures workouts[0].weight == w.weight && workouts[0].reps == w.reps
      ensures workouts[0].notes == if w.notes.Some? then w.notes.value else ""
      ensures workouts[1..] == old(workouts)
      ensures folders == old(folders)
    {
      workouts := [Stamped(w, id, now)] + workouts;
    }

    /** `updateWorkoutSet`: every entry with the id becomes `updated`. */
    method UpdateWorkoutSet(updated: WorkoutSet)
      requires Valid()
      modifies this
      ensures Valid()
      ensures workouts == ReplaceById(old(workouts), updated)
      ensures |workouts| == |old(workouts)|
      ensures forall i :: 0 <= i < |workouts| ==>
                workouts[i] == if old(workouts)[i].id == updated.id then updated else old(workouts)[i]
      ensures folders == old(folders)
    {
      workouts := ReplaceById(workouts, updated);
    }

    /** `deleteWorkoutSet`. */
    method DeleteWorkoutSet(id: string)
      requires Valid()
      modifies this
      ensures Valid()
      ensures workouts == Filter(old(workouts), NotSet(id))
      ensures forall w :: w in workouts ==> w in old(workouts) && w.id != id
      ensures forall w :: w in old(workouts) && w.id != id ==> w in workouts
      ensures folders == old(folders)
    {
      FilterKeepsDistinct(workouts, NotSet(id), SetId);
      FilterMembers(workouts, NotSet(id));
      workouts := Filter(workouts, NotSet(id));
    }

    /** `addFolder`: a new, empty folder goes at the end. */
    method AddFolder(name: string, description: string, id: string)
      requires Valid()
      requires forall f :: f in folders ==> f.id != id
      modifies this
      ensures Valid()
      ensures folders == old(folders) + [Folder(id, name, description, [])]
      ensures workouts == old(workouts)
    {
      folders := folders + [Folder(id, name, description, [])];
    }

    /** `deleteFolder`: no cascade to the sets. */
    method DeleteFolder(id: string)
      requires Valid()
      modifies this
      ensures Valid()
      ensures folders == Filter(old(folders), NotFolder(id))
      ensures forall f :: f in folders ==> f in old(folders) && f.id != id
      ensures forall f :: f in old(folders) && f.id != id ==> f in folders
      ensures workouts == old(workouts)
    {
      FilterKeepsDistinct(folders, NotFolder(id), FolderId);
      FilterMembers(folders, NotFolder(id));
      folders := Filter(folders, NotFolder(id));
    }

    /** `addExerciseToFolder`: appends unless the folder already has the
        name, ignoring case. */
    method AddExerciseToFolder(folderId: string, name: string, exerciseId: string)
      requires Valid()
      modifies this
      ensures Valid()
      ensures folders == AddExerciseIn(old(folders), folderId, name, exerciseId)
      ensures workouts == old(workouts)
    {
      folders := AddExerciseIn(folders, folderId, name, exerciseId);
    }

    /** `deleteExerciseFromFolder`: when the folder exists, removes the
        exercise from it and every set of that exercise. */
    method DeleteExerciseFromFolder(folderId: string, exerciseId: string)
      requires Valid()
      modifies this
      ensures Valid()
      ensures HasFolder(old(folders), folderId) ==>
                && workouts == Filter(old(workouts), NotOfExercise(exerciseId))
                && folders == RemoveExerciseIn(old(folders), folderId, exerciseId)
      ensures !HasFolder(old(folders), folderId) ==>
                workouts == old(workouts) && folders == old(folders)
      ensures forall w :: w in workouts ==> w in old(workouts)
      ensures HasFolder(old(folders), folderId) ==> forall w :: w in workouts ==> w.exerciseId != exerciseId
      ensures forall w :: w in old(workouts) && w.exerciseId != exerciseId ==> w in workouts
    {
      FilterMembers(workouts, NotOfExercise(exerciseId));
      if HasFolder(folders, folderId) {
        FilterKeepsDistinct(workouts, NotOfExercise(exerciseId), SetId);
        workouts := Filter(workouts, NotOfExercise(exerciseId));
        folders := RemoveExerciseIn(folders, folderId, exerciseId);
      }
    }
  }

  // ---------------------------------------------------------------------
  // Queries.

  /** The exercises of all folders, folder by folder. */
  function FlatExercises(fs: seq<Folder>): seq<Exercise> {
    if fs == [] then [] else fs[0].exercises + FlatExercises(fs[1..])
  }

  lemma {:induction false} FlatExercisesMembers(fs: seq<Folder>)
    ensures forall f, e :: f in fs && e in f.exercises ==> e in FlatExercises(fs)
    ensures forall e :: e in FlatExercises(fs) ==> exists f :: f in fs && e in f.exercises
  {
    if fs != [] {
      FlatExercisesMembers(fs[1..]);
      forall f, e | f in fs && e in f.exercises ensures e in FlatExercises(fs) {
        if f != fs[0] {
          assert f in fs[1..];
        }
      }
    }
  }

  /** `getAllExercises`: every exercise id once, the first occurrence kept,
      in folder order. */
  function AllExercises(fs: seq<Folder>): (r: seq<Exercise>)
    ensures DistinctBy(r, ExerciseId)
    ensures var flat := FlatExercises(fs);
      forall e :: e in flat ==> exists x :: x in r && ExerciseId(x) == ExerciseId(e)
    ensures var flat := FlatExercises(fs);
      forall x :: x in r ==> 0 <= IndexOfKey(flat, ExerciseId, x.id) < |flat| && x == flat[IndexOfKey(flat, ExerciseId, x.id)]
    ensures InFirstOrder(FlatExercises(fs), ExerciseId, r)
  {
    UniqueBy(FlatExercises(fs), ExerciseId)
  }

  /** Every exercise id of every folder is listed once, by an exercise
      taken from some folder. */
  lemma AllExercisesMembers(fs: seq<Folder>)
    ensures forall f, e :: f in fs && e in f.exercises ==> exists x :: x in AllExercises(fs) && x.id == e.id
    ensures forall x :: x in AllExercises(fs) ==> exists f :: f in fs && x in f.exercises
  {
    var flat := FlatExercises(fs);
    var r := AllExercises(fs);
    FlatExercisesMembers(fs);
    forall e | e in flat ensures exists x :: x in r && x.id == e.id {
      var x :| x in r && ExerciseId(x) == ExerciseId(e);
      assert x.id == e.id;
    }
    forall f, e | f in fs && e in f.exercises ensures exists x :: x in AllExercises(fs) && x.id == e.id {
      assert e in flat;
    }
    assert forall f, e :: f in fs && e in f.exercises ==> exists x :: x in AllExercises(fs) && x.id == e.id;
    forall x | x in r ensures exists f :: f in fs && x in f.exercises {
      assert x in flat;
    }
  }

  /** With unique exercise ids, `getAllExercises` is the plain flattening. */
  lemma AllExercisesWithoutDuplicates(fs: seq<Folder>)
    requires DistinctBy(FlatExercises(fs), ExerciseId)
    ensures AllExercises(fs) == FlatExercises(fs)
  {
    UniqueByDistinct(FlatExercises(fs), ExerciseId);
  }

  /** `getHistoryForExercise`: the exercise's sets, newest first. */
  function History(ws: seq<WorkoutSet>, exerciseId: string): (r: seq<WorkoutSet>)
    ensures forall w :: w in r ==> w in ws && w.exerciseId == exerciseId
    ensures forall w :: w in ws && w.exerciseId == exerciseId ==> w in r
    ensures multiset(r) == multiset(Filter(ws, OfExercise(exerciseId)))
    ensures SortedDesc(r, SetDate)
  {
    FilterMembers(ws, OfExercise(exerciseId));
    var f := Filter(ws, OfExercise(exerciseId));
    var r := SortDesc(f, SetDate);
    assert forall w :: w in r <==> w in multiset(r);
    assert forall w :: w in f <==> w in multiset(f);
    r
  }

  /** The history is stable: sets with the same date keep their order in
      the store. */
  lemma HistoryStable(ws: seq<WorkoutSet>, exerciseId: string, date: int)
    ensures Filter(History(ws, exerciseId), KeyIs(SetDate, date))
         == Filter(Filter(ws, OfExercise(exerciseId)), KeyIs(SetDate, date))
  {
    SortDescStable(Filter(ws, OfExercise(exerciseId)), SetDate, date);
  }

  /** Taking the history of a history changes nothing. */
  lemma HistoryIdempotent(ws: seq<WorkoutSet>, exerciseId: string)
    ensures History(History(ws, exerciseId), exerciseId) == History(ws, exerciseId)
  {
    var h := History(ws, exerciseId);
    FilterAll(h, OfExercise(exerciseId));
    SortDescSorted(h, SetDate);
  }

  /** Deleting the sets of one exercise leaves every other history as it was. */
  lemma HistoryUntouchedByOtherDeletes(ws: seq<WorkoutSet>, deleted: string, exerciseId: string)
    requires deleted != exerciseId
    ensures History(Filter(ws, NotOfExercise(deleted)), exerciseId) == History(ws, exerciseId)
  {
    FilterSubsumed(ws, NotOfExercise(deleted), OfExercise(exerciseId));
  }

  /** `h[m]` is the heaviest set of `h` and no earlier set is as heavy. */
  ghost predicate IsFirstMax(h: seq<WorkoutSet>, m: int) {
    && 0 <= m < |h|
    && (forall j :: 0 <= j < |h| ==> h[j].weight <= h[m].weight)
    && (forall j :: 0 <= j < m ==> h[j].weight < h[m].weight)
  }

  /** The personal-best reduce: starting from `pb`, a set replaces the
      current best only when it is strictly heavier. */
  function HeaviestFrom(pb: WorkoutSet, rest: seq<WorkoutSet>): WorkoutSet
    decreases |rest|
  {
    if rest == [] then pb
    else HeaviestFrom(if rest[0].weight > pb.weight then rest[0] else pb, rest[1..])
  }

  /** The fold keeps the first of the heaviest sets, because it replaces
      the running best only on a strictly larger weight. */
  lemma {:induction false} HeaviestFromIsFirstMax(h: seq<WorkoutSet>, k: nat, i: nat) returns (m: int)
    requires k < i <= |h|
    requires forall j :: 0 <= j < i ==> h[j].weight <= h[k].weight
    requires forall j :: 0 <= j < k ==> h[j].weight < h[k].weight
    ensures IsFirstMax(h, m) && HeaviestFrom(h[k], h[i..]) == h[m]
    decreases |h| - i
  {
    if i == |h| {
      m := k;
    } else {
      var rest := h[i..];
      assert rest[0] == h[i] && rest[1..] == h[i + 1..];
      if h[i].weight > h[k].weight {
        assert HeaviestFrom(h[k], rest) == HeaviestFrom(h[i], h[i + 1..]);
        m := HeaviestFromIsFirstMax(h, i, i + 1);
      } else {
        assert HeaviestFrom(h[k], rest) == HeaviestFrom(h[k], h[i + 1..]);
        m := HeaviestFromIsFirstMax(h, k, i + 1);
      }
    }
  }

  /** The fold over a whole non-empty list lands on its first maximum. */
  lemma HeaviestIsFirstMax(h: seq<WorkoutSet>)
    requires |h| > 0
    ensures exists m :: IsFirstMax(h, m) && HeaviestFrom(h[0], h[1..]) == h[m]
  {
    var m := HeaviestFromIsFirstMax(h, 0, 1);
  }

  /** `getPersonalBest`: null for an empty history, else its first
      heaviest set. */
  function PersonalBest(ws: seq<WorkoutSet>, exerciseId: string): (r: Option<WorkoutSet>)
    ensures r.None? <==> History(ws, exerciseId) == []
    ensures r.Some? ==> exists m :: IsFirstMax(History(ws, exerciseId), m) && r.value == History(ws, exerciseId)[m]
  {
    var h := History(ws, exerciseId);
    if |h| == 0 then None
    else
      HeaviestIsFirstMax(h);
      Some(HeaviestFrom(h[0], h[1..]))
  }

  /** `getLatestWorkout`: null for an empty history, else its head, the
      newest set of the exercise. */
  function LatestWorkout(ws: seq<WorkoutSet>, exerciseId: string): (r: Option<WorkoutSet>)
    ensures r.None? <==> History(ws, exerciseId) == []
    ensures r.Some? ==> r.value == History(ws, exerciseId)[0]
    ensures r.Some? ==> r.value in ws && r.value.exerciseId == exerciseId
    ensures r.Some? ==> forall w :: w in ws && w.exerciseId == exerciseId ==> w.date <= r.value.date
  {
    var h := History(ws, exerciseId);
    if |h| == 0 then None
    else
      assert h[0] in h;
      assert forall w :: w in h ==> exists j :: 0 <= j < |h| && h[j] == w;
      Some(h[0])
  }

  /** The scenario of logging 60 kg and then 65 kg of bench press: the
      later, heavier set is both the personal best and the latest set. */
  lemma BenchPressScenario(first: WorkoutSet, second: WorkoutSet)
    requires first.exerciseId == "bench" && second.exerciseId == "bench"
    requires first.weight == 60.0 && second.weight == 65.0
    requires first.date < second.date
    ensures PersonalBest([second, first], "bench") == Some(second)
    ensures LatestWorkout([second, first], "bench") == Some(second)
  {
    var ws := [second, first];
    FilterAll(ws, OfExercise("bench"));
    assert SortedDesc(ws, SetDate);
    SortDescSorted(ws, SetDate);
    var h := History(ws, "bench");
    assert h == ws;
    assert h[1..] == [first];
    assert HeaviestFrom(second, [first]) == HeaviestFrom(second, []);
  }
}
