/** What a snapshot holds, in order, and why it skips a name. */
module KernelSnapshotContents {
  import opened Wrappers
  import opened Text
  import opened Sorting
  import opened KernelSnapshot
  import opened KernelSnapshotLaws

  // Why a value is skipped

  /** The value at the end of this path is the first, from the outside in and in order, that cannot be saved. */
  ghost predicate IsFirstBad(v: PyValue, depth: nat, path: seq<nat>, error: SafeError)
    decreases |path|
  {
    if depth > 8 then path == [] && error == TooDeep
    else if !Supported(v) then path == [] && error == Unsupported(if v.Opaque? then v.typeName else "dict")
    else
      && path != [] && path[0] < |Parts(v)|
      && (forall j :: 0 <= j < path[0] ==> Storable(Parts(v)[j], depth + 1))
      && IsFirstBad(Parts(v)[path[0]], depth + 1, path[1..], error)
  }

  /** The first of some parts that cannot be saved. */
  ghost predicate IsFirstAmong(parts: seq<PyValue>, depth: nat, i: nat, path: seq<nat>, error: SafeError) {
    && i < |parts| && (forall j :: 0 <= j < i ==> Storable(parts[j], depth))
    && IsFirstBad(parts[i], depth, path, error)
  }

  lemma BadPart(v: PyValue, depth: nat, i: nat, path: seq<nat>, error: SafeError)
    requires depth <= 8 && Supported(v) && IsFirstAmong(Parts(v), depth + 1, i, path, error)
    ensures IsFirstBad(v, depth, [i] + path, error)
  {
    assert ([i] + path)[1..] == path;
  }

  lemma BadPartBehind(first: PyValue, rest: seq<PyValue>, depth: nat, i: nat, path: seq<nat>, error: SafeError)
    requires Storable(first, depth) && IsFirstAmong(rest, depth, i, path, error)
    ensures IsFirstAmong([first] + rest, depth, i + 1, path, error)
  {
    var parts := [first] + rest;
    assert parts[i + 1] == rest[i];
    forall j | 0 <= j < i + 1 ensures Storable(parts[j], depth) {
      if j > 0 {
        assert parts[j] == rest[j - 1];
      }
    }
  }

  /** The error a value is skipped with is that of its first part that cannot be saved. */
  lemma {:induction false} ErrorIsOfTheFirstBadPart(v: PyValue, depth: nat) returns (path: seq<nat>)
    requires JsonSafe(v, depth).Err?
    ensures IsFirstBad(v, depth, path, JsonSafe(v, depth).error)
    decreases v, 1
  {
    path := [];
    if depth <= 8 && Supported(v) {
      var i: nat, rest: seq<nat>;
      match v {
        case List(items) => i, rest := FirstBadItem(items, depth + 1);
        case Tuple(items) => i, rest := FirstBadItem(items, depth + 1);
        case Dict(entries) => i, rest := FirstBadEntry(entries, depth + 1);
        case _ =>
      }
      path := [i] + rest;
      BadPart(v, depth, i, rest, JsonSafe(v, depth).error);
    }
  }

  lemma {:induction false} FirstBadItem(items: seq<PyValue>, depth: nat) returns (i: nat, path: seq<nat>)
    requires ItemsSafe(items, depth).Err?
    ensures IsFirstAmong(items, depth, i, path, ItemsSafe(items, depth).error)
    decreases items, 0
  {
    SavedExactlyWhenStorable(items[0], depth);
    if JsonSafe(items[0], depth).Err? {
      path := ErrorIsOfTheFirstBadPart(items[0], depth);
      i := 0;
    } else {
      i, path := FirstBadItem(items[1..], depth);
      BadPartBehind(items[0], items[1..], depth, i, path, ItemsSafe(items, depth).error);
      HeadAndRest(items, []);
      i := i + 1;
    }
  }

  lemma {:induction false} FirstBadEntry(entries: seq<(Key, PyValue)>, depth: nat) returns (i: nat, path: seq<nat>)
    requires EntriesSafe(entries, depth).Err?
    ensures IsFirstAmong(Parts(Dict(entries)), depth, i, path, EntriesSafe(entries, depth).error)
    decreases entries, 0
  {
    var entry := entries[0];
    SavedExactlyWhenStorable(entry.1, depth);
    if JsonSafe(entry.1, depth).Err? {
      path := FirstBadIn(entry, depth);
      i := 0;
    } else {
      i, path := FirstBadEntry(entries[1..], depth);
      BadPartBehind(entry.1, Parts(Dict(entries[1..])), depth, i, path, EntriesSafe(entries, depth).error);
      PartsStep(entries);
      i := i + 1;
    }
  }

  lemma PartsStep(entries: seq<(Key, PyValue)>)
    requires entries != []
    ensures Parts(Dict(entries)) == [entries[0].1] + Parts(Dict(entries[1..]))
  {
  }

  lemma {:induction false} FirstBadIn(entry: (Key, PyValue), depth: nat) returns (path: seq<nat>)
    requires EntrySafe(entry, depth).Err?
    ensures IsFirstBad(entry.1, depth, path, EntrySafe(entry, depth).error)
    decreases entry, 0
  {
    path := ErrorIsOfTheFirstBadPart(entry.1, depth);
  }

  // What is saved and what is skipped

  /** The bindings with every tuple turned into a list. */
  function InLists(b: Bindings): (r: Bindings)
    ensures |r| == |b| && forall i :: 0 <= i < |r| ==> r[i] == (b[i].0, ToLists(b[i].1))
  {
    seq(|b|, i requires 0 <= i < |b| => (b[i].0, ToLists(b[i].1)))
  }

  predicate Saves(binding: (string, PyValue)) {
    Eligible(binding.0) && JsonSafe(binding.1, 0).Ok?
  }

  lemma SavedStep(b: Bindings)
    requires b != []
    ensures Saved(b) == (if Saves(b[0]) then [InLists(b)[0]] else []) + Saved(b[1..])
  {
    SavedExactlyWhenStorable(b[0].1, 0);
    Nothing(Saved(b[1..]));
  }

  lemma InListsStep(b: Bindings)
    requires b != []
    ensures InLists(b) == [InLists(b)[0]] + InLists(b[1..])
  {
  }

  lemma Nothing<T>(s: seq<T>)
    ensures [] + s == s
  {
  }

  /** Saved are, in the order of the namespace, the kept names with storable values. */
  lemma {:induction false} SavedInOrder(b: Bindings) returns (p: seq<nat>)
    ensures Selects(p, InLists(b), Saved(b))
    ensures forall i: nat :: i in p <==> i < |b| && Kept(b[i].0) && Storable(b[i].1, 0)
  {
    if b == [] {
      p := [];
    } else {
      var q := SavedInOrder(b[1..]);
      p := Shifted(q, Saves(b[0]));
      SavedStep(b);
      InListsStep(b);
      SelectsOneMore(q, InLists(b)[0], InLists(b[1..]), Saved(b[1..]), Saves(b[0]));
      KeptAreEligible(b[0].0);
      SavedExactlyWhenStorable(b[0].1, 0);
      forall i: nat ensures i in p <==> i < |b| && Kept(b[i].0) && Storable(b[i].1, 0) {
        ShiftedIn(q, Saves(b[0]), i);
      }
    }
  }

  /** The reason a name is skipped for is that of the first part of its value that cannot be saved. */
  ghost predicate HasReason(value: PyValue, error: SafeError) {
    exists path: seq<nat> :: IsFirstBad(value, 0, path, error)
  }

  predicate Skips(binding: (string, PyValue)) {
    Eligible(binding.0) && JsonSafe(binding.1, 0).Err?
  }

  /** Each name with the error its value raises; any error where it raises none. */
  function WithErrors(b: Bindings): (r: seq<(string, SafeError)>)
    ensures |r| == |b|
    ensures forall i :: 0 <= i < |r| ==> r[i].0 == b[i].0
    ensures forall i :: 0 <= i < |r| && JsonSafe(b[i].1, 0).Err? ==> r[i].1 == JsonSafe(b[i].1, 0).error
  {
    seq(|b|, i requires 0 <= i < |b| => var safe := JsonSafe(b[i].1, 0);
                                        (b[i].0, if safe.Err? then safe.error else TooDeep))
  }

  lemma SkippedStep(b: Bindings)
    requires b != []
    ensures Skipped(b) == (if Skips(b[0]) then [WithErrors(b)[0]] else []) + Skipped(b[1..])
  {
    Nothing(Skipped(b[1..]));
    if Skips(b[0]) {
      assert WithErrors(b)[0] == (b[0].0, JsonSafe(b[0].1, 0).error);
    }
  }

  lemma WithErrorsStep(b: Bindings)
    requires b != []
    ensures WithErrors(b) == [WithErrors(b)[0]] + WithErrors(b[1..])
  {
  }

  lemma {:induction false} SkippedErrors(b: Bindings) returns (p: seq<nat>)
    ensures Selects(p, WithErrors(b), Skipped(b))
    ensures forall i: nat :: i in p <==> i < |b| && Kept(b[i].0) && !Storable(b[i].1, 0)
  {
    if b == [] {
      p := [];
    } else {
      var q := SkippedErrors(b[1..]);
      p := Shifted(q, Skips(b[0]));
      SkippedStep(b);
      WithErrorsStep(b);
      SelectsOneMore(q, WithErrors(b)[0], WithErrors(b[1..]), Skipped(b[1..]), Skips(b[0]));
      KeptAreEligible(b[0].0);
      SavedExactlyWhenStorable(b[0].1, 0);
      forall i: nat ensures i in p <==> i < |b| && Kept(b[i].0) && !Storable(b[i].1, 0) {
        ShiftedIn(q, Skips(b[0]), i);
      }
    }
  }

  /** Skipped are, in the order of the namespace, the kept names with other values, each with its reason. */
  lemma SkippedInOrder(b: Bindings) returns (p: seq<nat>)
    ensures Selects(p, Keys(b), Keys(Skipped(b)))
    ensures forall i: nat :: i in p <==> i < |b| && Kept(b[i].0) && !Storable(b[i].1, 0)
    ensures forall k :: 0 <= k < |p| ==> HasReason(b[p[k]].1, Skipped(b)[k].1)
  {
    p := SkippedErrors(b);
    forall k | 0 <= k < |p| ensures HasReason(b[p[k]].1, Skipped(b)[k].1) {
      assert p[k] in p;
      SavedExactlyWhenStorable(b[p[k]].1, 0);
      var path := ErrorIsOfTheFirstBadPart(b[p[k]].1, 0);
    }
  }

  // What a file restores

  /** Restoring takes the bindings under "values", none if there is no file or nothing there, and no other form. */
  lemma FileDecides(file: Option<PyValue>)
    ensures file.None? ==> FileValues(file) == Ok([])
    ensures file.Some? && !file.value.Dict? ==> FileValues(file) == Err(NotAnObject)
    ensures file.Some? && file.value.Dict? ==>
              match Item(file.value.entries, "values")
              case None => FileValues(file) == Ok([])
              case Some(values) =>
                if values.Dict? then FileValues(file).Ok? else FileValues(file) == Err(InvalidSnapshot)
  {
  }
}
