/** What a snapshot keeps of a namespace, and what restoring it brings back. */
module KernelSnapshotLaws {
  import opened Wrappers
  import opened Text
  import opened Sorting
  import opened KernelSnapshot

  // Which values can be saved

  /** The parts of a value, one step down. */
  function Parts(v: PyValue): seq<PyValue> {
    match v
    case List(items) => items
    case Tuple(items) => items
    case Dict(entries) => seq(|entries|, i requires 0 <= i < |entries| => entries[i].1)
    case _ => []
  }

  /** The part of a value at the end of a path of positions, if the path leads somewhere. */
  function At(v: PyValue, path: seq<nat>): Option<PyValue>
    decreases |path|
  {
    if path == [] then Some(v)
    else if path[0] < |Parts(v)| then At(Parts(v)[path[0]], path[1..])
    else None
  }

  predicate Supported(v: PyValue) {
    !v.Opaque? && (v.Dict? ==> NamesOnly(v.entries))
  }

  /** Every part, however deep, is supported and lies within the depth that is left. */
  ghost predicate Storable(v: PyValue, depth: nat) {
    forall path :: At(v, path).Some? ==> depth + |path| <= 8 && Supported(At(v, path).value)
  }

  lemma StorableStep(v: PyValue, depth: nat)
    ensures Storable(v, depth) <==>
            depth <= 8 && Supported(v) && forall i :: 0 <= i < |Parts(v)| ==> Storable(Parts(v)[i], depth + 1)
  {
    if Storable(v, depth) {
      assert At(v, []) == Some(v);
      forall i | 0 <= i < |Parts(v)| ensures Storable(Parts(v)[i], depth + 1) {
        forall path | At(Parts(v)[i], path).Some?
          ensures depth + 1 + |path| <= 8 && Supported(At(Parts(v)[i], path).value)
        {
          assert ([i] + path)[1..] == path;
          assert At(v, [i] + path) == At(Parts(v)[i], path);
        }
      }
    } else {
      var path :| At(v, path).Some? && !(depth + |path| <= 8 && Supported(At(v, path).value));
      if path != [] {
        assert At(Parts(v)[path[0]], path[1..]) == At(v, path);
      }
    }
  }

  lemma StorableSequence(v: PyValue, items: seq<PyValue>, depth: nat)
    requires v == List(items) || v == Tuple(items)
    ensures Storable(v, depth) <==> depth <= 8 && forall i :: 0 <= i < |items| ==> Storable(items[i], depth + 1)
  {
    StorableStep(v, depth);
    assert Parts(v) == items;
  }

  lemma StorableDict(entries: seq<(Key, PyValue)>, depth: nat)
    ensures Storable(Dict(entries), depth) <==>
            && depth <= 8 && NamesOnly(entries)
            && forall i :: 0 <= i < |entries| ==> Storable(entries[i].1, depth + 1)
  {
    StorableStep(Dict(entries), depth);
    assert forall i :: 0 <= i < |entries| ==> Parts(Dict(entries))[i] == entries[i].1;
  }

  /** The value with every tuple in it turned into a list. */
  function ToLists(v: PyValue): PyValue
    decreases v, 1
  {
    match v
    case List(items) => List(ItemsToLists(items))
    case Tuple(items) => List(ItemsToLists(items))
    case Dict(entries) => Dict(EntriesToLists(entries))
    case _ => v
  }

  function ItemsToLists(items: seq<PyValue>): (r: seq<PyValue>)
    decreases items, 0
  {
    if items == [] then [] else [ToLists(items[0])] + ItemsToLists(items[1..])
  }

  function EntriesToLists(entries: seq<(Key, PyValue)>): seq<(Key, PyValue)>
    decreases entries, 0
  {
    if entries == [] then [] else [EntryToLists(entries[0])] + EntriesToLists(entries[1..])
  }

  function EntryToLists(entry: (Key, PyValue)): (Key, PyValue)
    decreases entry, 0
  {
    (entry.0, ToLists(entry.1))
  }

  /** A value is saved exactly when it is storable, as itself with tuples turned into lists. */
  ghost predicate SavedRight(v: PyValue, depth: nat) {
    && (JsonSafe(v, depth).Ok? <==> Storable(v, depth))
    && (JsonSafe(v, depth).Ok? ==> JsonSafe(v, depth).value == ToLists(v))
  }

  /**
   A value is saved exactly when every part of it is supported and at most eight levels deep, and
   what is saved is the value with tuples turned into lists.
   */
  lemma {:induction false} SavedExactlyWhenStorable(v: PyValue, depth: nat)
    ensures SavedRight(v, depth)
    decreases v, 1
  {
    match v {
      case List(items) =>
        ItemsSavedWhenStorable(items, depth + 1);
        SequenceSavedWhenStorable(v, items, depth);
      case Tuple(items) =>
        ItemsSavedWhenStorable(items, depth + 1);
        SequenceSavedWhenStorable(v, items, depth);
      case Dict(entries) =>
        EntriesSavedWhenStorable(entries, depth + 1);
        DictSavedWhenStorable(entries, depth);
      case _ =>
        LeafSavedWhenStorable(v, depth);
    }
  }

  lemma LeafSavedWhenStorable(v: PyValue, depth: nat)
    requires !v.List? && !v.Tuple? && !v.Dict?
    ensures SavedRight(v, depth)
  {
    StorableStep(v, depth);
  }

  lemma SequenceSavedWhenStorable(v: PyValue, items: seq<PyValue>, depth: nat)
    requires v == List(items) || v == Tuple(items)
    requires ItemsSafe(items, depth + 1).Ok? <==> forall i :: 0 <= i < |items| ==> Storable(items[i], depth + 1)
    requires ItemsSafe(items, depth + 1).Ok? ==> ItemsSafe(items, depth + 1).value == ItemsToLists(items)
    ensures SavedRight(v, depth)
  {
    StorableSequence(v, items, depth);
  }

  lemma DictSavedWhenStorable(entries: seq<(Key, PyValue)>, depth: nat)
    requires EntriesSafe(entries, depth + 1).Ok?
        <==> forall i :: 0 <= i < |entries| ==> Storable(entries[i].1, depth + 1)
    requires EntriesSafe(entries, depth + 1).Ok? ==> EntriesSafe(entries, depth + 1).value == EntriesToLists(entries)
    ensures SavedRight(Dict(entries), depth)
  {
    StorableDict(entries, depth);
  }

  lemma {:induction false} ItemsSavedWhenStorable(items: seq<PyValue>, depth: nat)
    ensures ItemsSafe(items, depth).Ok? <==> forall i :: 0 <= i < |items| ==> Storable(items[i], depth)
    ensures ItemsSafe(items, depth).Ok? ==> ItemsSafe(items, depth).value == ItemsToLists(items)
    decreases items, 0
  {
    if items != [] {
      SavedExactlyWhenStorable(items[0], depth);
      ItemsSavedWhenStorable(items[1..], depth);
      assert forall i :: 1 <= i < |items| ==> items[i] == items[1..][i - 1];
    }
  }

  lemma {:induction false} EntriesSavedWhenStorable(entries: seq<(Key, PyValue)>, depth: nat)
    ensures EntriesSafe(entries, depth).Ok? <==> forall i :: 0 <= i < |entries| ==> Storable(entries[i].1, depth)
    ensures EntriesSafe(entries, depth).Ok? ==> EntriesSafe(entries, depth).value == EntriesToLists(entries)
    decreases entries, 0
  {
    if entries != [] {
      EntrySavedWhenStorable(entries[0], depth);
      EntriesSavedWhenStorable(entries[1..], depth);
      assert forall i :: 1 <= i < |entries| ==> entries[i] == entries[1..][i - 1];
    }
  }

  lemma {:induction false} EntrySavedWhenStorable(entry: (Key, PyValue), depth: nat)
    ensures EntrySafe(entry, depth).Ok? <==> Storable(entry.1, depth)
    ensures EntrySafe(entry, depth).Ok? ==> EntrySafe(entry, depth).value == EntryToLists(entry)
    decreases entry, 0
  {
    SavedExactlyWhenStorable(entry.1, depth);
  }

  /** What was saved once is saved again unchanged. */
  lemma {:induction false} SavedValuesAreStable(v: PyValue, depth: nat)
    requires JsonSafe(v, depth).Ok?
    ensures JsonSafe(JsonSafe(v, depth).value, depth) == JsonSafe(v, depth)
    decreases v, 1
  {
    match v {
      case List(items) => SavedItemsAreStable(items, depth + 1);
      case Tuple(items) => SavedItemsAreStable(items, depth + 1);
      case Dict(entries) => SavedEntriesAreStable(entries, depth + 1);
      case _ =>
    }
  }

  lemma {:induction false} SavedItemsAreStable(items: seq<PyValue>, depth: nat)
    requires ItemsSafe(items, depth).Ok?
    ensures ItemsSafe(ItemsSafe(items, depth).value, depth) == ItemsSafe(items, depth)
    decreases items, 0
  {
    if items != [] {
      SavedValuesAreStable(items[0], depth);
      SavedItemsAreStable(items[1..], depth);
      var first, rest := JsonSafe(items[0], depth).value, ItemsSafe(items[1..], depth).value;
      assert ([first] + rest)[1..] == rest;
    }
  }

  lemma {:induction false} SavedEntriesAreStable(entries: seq<(Key, PyValue)>, depth: nat)
    requires EntriesSafe(entries, depth).Ok?
    ensures EntriesSafe(EntriesSafe(entries, depth).value, depth) == EntriesSafe(entries, depth)
    ensures NamesOnly(entries) ==> NamesOnly(EntriesSafe(entries, depth).value)
    decreases entries, 0
  {
    if entries != [] {
      SavedEntryIsStable(entries[0], depth);
      SavedEntriesAreStable(entries[1..], depth);
      var first, rest := EntrySafe(entries[0], depth).value, EntriesSafe(entries[1..], depth).value;
      assert ([first] + rest)[1..] == rest;
    }
  }

  lemma {:induction false} SavedEntryIsStable(entry: (Key, PyValue), depth: nat)
    requires EntrySafe(entry, depth).Ok?
    ensures EntrySafe(EntrySafe(entry, depth).value, depth) == EntrySafe(entry, depth)
    decreases entry, 0
  {
    SavedValuesAreStable(entry.1, depth);
  }

  // Which names are saved

  /** Neither `haf` nor `Path`, and no underscore in front. */
  predicate Kept(name: string) {
    name != "haf" && name != "Path" && (name == "" || name[0] != '_')
  }

  lemma KeptAreEligible(name: string)
    ensures Eligible(name) <==> Kept(name)
  {
  }

  lemma {:induction false} FindsWhatIsBound(b: Bindings, name: string)
    ensures Find(b, name).Some? <==> name in Keys(b)
  {
    if b != [] {
      assert Keys(b) == [b[0].0] + Keys(b[1..]);
      FindsWhatIsBound(b[1..], name);
    }
  }

  lemma {:induction false} SavedFinds(b: Bindings, name: string)
    requires Distinct(Keys(b))
    ensures Distinct(Keys(Saved(b)))
    ensures Find(Saved(b), name) ==
            match Find(b, name)
            case None => None
            case Some(v) => if Eligible(name) && JsonSafe(v, 0).Ok? then Some(JsonSafe(v, 0).value) else None
  {
    if b != [] {
      assert Keys(b)[1..] == Keys(b[1..]);
      SavedFinds(b[1..], name);
      SavedNames(b[1..]);
      FindsWhatIsBound(b[1..], b[0].0);
      assert b[0].0 !in Keys(b[1..]);
      if Eligible(b[0].0) && JsonSafe(b[0].1, 0).Ok? {
        assert Keys(Saved(b)) == [b[0].0] + Keys(Saved(b[1..]));
      }
    }
  }

  lemma {:induction false} SavedNames(b: Bindings)
    ensures forall name :: name in Keys(Saved(b)) ==> name in Keys(b)
  {
    if b != [] {
      SavedNames(b[1..]);
      assert Keys(b) == [b[0].0] + Keys(b[1..]);
      if Eligible(b[0].0) && JsonSafe(b[0].1, 0).Ok? {
        assert Keys(Saved(b)) == [b[0].0] + Keys(Saved(b[1..]));
      }
    }
  }

  lemma {:induction false} SkippedHas(b: Bindings, name: string)
    requires Distinct(Keys(b))
    ensures name in Keys(Skipped(b)) <==>
            Find(b, name).Some? && Eligible(name) && JsonSafe(Find(b, name).value, 0).Err?
  {
    if b != [] {
      assert Keys(b)[1..] == Keys(b[1..]);
      SkippedHas(b[1..], name);
      FindsWhatIsBound(b[1..], name);
      if Eligible(b[0].0) && JsonSafe(b[0].1, 0).Err? {
        assert Keys(Skipped(b)) == [b[0].0] + Keys(Skipped(b[1..]));
      }
    }
  }

  /**
   A snapshot splits the eligible names: a name is saved exactly when it is bound to a storable
   value, and skipped exactly when it is bound to another.
   */
  lemma SnapshotSplitsTheNames(b: Bindings, name: string)
    requires Distinct(Keys(b))
    ensures name in Keys(Saved(b)) <==> Find(b, name).Some? && Kept(name) && Storable(Find(b, name).value, 0)
    ensures name in Keys(Skipped(b)) <==> Find(b, name).Some? && Kept(name) && !Storable(Find(b, name).value, 0)
    ensures name in Keys(Saved(b)) ==> Find(Saved(b), name) == Some(ToLists(Find(b, name).value))
  {
    KeptAreEligible(name);
    SavedFinds(b, name);
    SkippedHas(b, name);
    FindsWhatIsBound(Saved(b), name);
    if Find(b, name).Some? {
      SavedExactlyWhenStorable(Find(b, name).value, 0);
    }
  }

  // Restoring

  lemma {:induction false} BindFinds(b: Bindings, name: string, value: PyValue, other: string)
    ensures Find(Bind(b, name, value), other) == if other == name then Some(value) else Find(b, other)
  {
    if b != [] && b[0].0 != name {
      BindFinds(b[1..], name, value, other);
    }
  }

  lemma DistinctStep(x: string, rest: seq<string>)
    ensures Distinct([x] + rest) <==> x !in rest && Distinct(rest)
  {
    var all := [x] + rest;
    if Distinct(all) {
      forall i | 0 <= i < |rest| ensures rest[i] != x {
        assert all[0] != all[i + 1];
      }
      forall i, j | 0 <= i < j < |rest| ensures rest[i] != rest[j] {
        assert all[i + 1] != all[j + 1];
      }
    }
  }

  lemma KeysStep(e: (string, PyValue), rest: Bindings)
    ensures Keys([e] + rest) == [e.0] + Keys(rest)
  {
  }

  lemma {:induction false} BindKeepsDistinct(b: Bindings, name: string, value: PyValue)
    requires Distinct(Keys(b))
    ensures Distinct(Keys(Bind(b, name, value)))
  {
    if b != [] {
      HeadAndRest(b, []);
      KeysStep(b[0], b[1..]);
      DistinctStep(b[0].0, Keys(b[1..]));
      if b[0].0 == name {
        KeysStep((name, value), b[1..]);
      } else {
        BindKeepsDistinct(b[1..], name, value);
        BindAddsOnly(b[1..], name, value, b[0].0);
        KeysStep(b[0], Bind(b[1..], name, value));
        DistinctStep(b[0].0, Keys(Bind(b[1..], name, value)));
      }
    }
  }

  lemma BindAddsOnly(b: Bindings, name: string, value: PyValue, other: string)
    requires other != name
    ensures other in Keys(Bind(b, name, value)) <==> other in Keys(b)
  {
    BindFinds(b, name, value, other);
    FindsWhatIsBound(b, other);
    FindsWhatIsBound(Bind(b, name, value), other);
  }

  /** Updating sets the names given and leaves all others alone. */
  lemma {:induction false} UpdateFinds(b: Bindings, values: Bindings, name: string)
    requires Distinct(Keys(values))
    ensures Find(Update(b, values), name) == if Find(values, name).Some? then Find(values, name) else Find(b, name)
    decreases |values|
  {
    if values != [] {
      assert Keys(values)[1..] == Keys(values[1..]);
      UpdateFinds(Bind(b, values[0].0, values[0].1), values[1..], name);
      BindFinds(b, values[0].0, values[0].1, name);
      FindsWhatIsBound(values[1..], values[0].0);
      assert values[0].0 !in Keys(values[1..]);
    }
  }

  lemma {:induction false} UpdateKeepsDistinct(b: Bindings, values: Bindings)
    requires Distinct(Keys(b))
    ensures Distinct(Keys(Update(b, values)))
    decreases |values|
  {
    if values != [] {
      BindKeepsDistinct(b, values[0].0, values[0].1);
      UpdateKeepsDistinct(Bind(b, values[0].0, values[0].1), values[1..]);
    }
  }

  lemma {:induction false} NamesReadBack(b: Bindings)
    ensures Names(NamedEntries(b)) == b
  {
    if b != [] {
      assert NamedEntries(b)[1..] == NamedEntries(b[1..]);
      NamesReadBack(b[1..]);
      assert b == [b[0]] + b[1..];
    }
  }

  /** Reading a snapshot file gives the values that were saved, under version 1. */
  lemma FileReadsBack(values: Bindings)
    ensures FileValues(Some(SnapshotFile(values))) == Ok(values)
    ensures SnapshotFile(values).Dict? && Item(SnapshotFile(values).entries, "version") == Some(Int(1))
  {
    NamesReadBack(values);
    var entries := SnapshotFile(values).entries;
    assert "version"[1] == 'e' && "values"[1] == 'a';
    assert entries[0].0 != Name("values");
    assert entries[1..][0] == (Name("values"), Dict(NamedEntries(values)));
    assert Item(entries, "values") == Item(entries[1..], "values") == Some(Dict(NamedEntries(values)));
  }

  /**
   Restoring a snapshot, into whatever namespace, sets every saved name to its value with tuples
   turned into lists and leaves every other name as it was; `haf`, `Path` and underscore names are
   among those.
   */
  lemma RestoreBringsBackWhatWasSaved(b: Bindings, later: Bindings, name: string)
    requires Distinct(Keys(b))
    ensures FileValues(Some(SnapshotFile(Saved(b)))) == Ok(Saved(b))
    ensures Find(Update(later, Saved(b)), name) ==
            if Find(b, name).Some? && Kept(name) && Storable(Find(b, name).value, 0)
            then Some(ToLists(Find(b, name).value)) else Find(later, name)
  {
    KeptAreEligible(name);
    FileReadsBack(Saved(b));
    SavedFinds(b, name);
    SnapshotSplitsTheNames(b, name);
    FindsWhatIsBound(Saved(b), name);
    UpdateFinds(later, Saved(b), name);
  }

  /** A second snapshot, taken after restoring the first, saves its names with the same values. */
  lemma SecondSnapshotAgrees(b: Bindings, later: Bindings, name: string)
    requires Distinct(Keys(b)) && Distinct(Keys(later)) && Find(Saved(b), name).Some?
    ensures Find(Saved(Update(later, Saved(b))), name) == Find(Saved(b), name)
  {
    SavedFinds(b, name);
    UpdateFinds(later, Saved(b), name);
    UpdateKeepsDistinct(later, Saved(b));
    SavedFinds(Update(later, Saved(b)), name);
    SavedValuesAreStable(Find(b, name).value, 0);
  }
}
