/**
 `json_safe`, `snapshot` and `restore`: which names of the kernel's namespace survive a restart.

 A snapshot file is the data it holds; its JSON text is not modelled.  Python values are finite
 trees, and numbers keep their value through the file.
 */
module KernelSnapshot {
  import opened Wrappers
  import opened Text

  datatype Key = Name(s: string) | Foreign

  datatype PyValue =
    | NoneValue
    | Bool(b: bool)
    | Int(n: int)
    | Float(x: real)
    | Str(s: string)
    | List(items: seq<PyValue>)
    | Tuple(items: seq<PyValue>)
    | Dict(entries: seq<(Key, PyValue)>)
    | Opaque(typeName: string)

  datatype SafeError = TooDeep | Unsupported(typeName: string)

  const MAX_DEPTH := 8

  predicate NamesOnly(entries: seq<(Key, PyValue)>) {
    forall i :: 0 <= i < |entries| ==> entries[i].0.Name?
  }

  /** `json_safe`. */
  function JsonSafe(v: PyValue, depth: nat): Result<PyValue, SafeError>
    decreases v, 1
  {
    if depth > MAX_DEPTH then Err(TooDeep)
    else match v
      case List(items) => AsList(ItemsSafe(items, depth + 1))
      case Tuple(items) => AsList(ItemsSafe(items, depth + 1))
      case Dict(entries) => if NamesOnly(entries) then AsDict(EntriesSafe(entries, depth + 1))
          else Err(Unsupported("dict"))
      case Opaque(typeName) => Err(Unsupported(typeName))
      case _ => Ok(v)
  }

  function AsList(r: Result<seq<PyValue>, SafeError>): Result<PyValue, SafeError> {
    match r
    case Ok(items) => Ok(List(items))
    case Err(error) => Err(error)
  }

  function AsDict(r: Result<seq<(Key, PyValue)>, SafeError>): Result<PyValue, SafeError> {
    match r
    case Ok(entries) => Ok(Dict(entries))
    case Err(error) => Err(error)
  }

  /** A comprehension stops at the first item that raises. */
  function ItemsSafe(items: seq<PyValue>, depth: nat): Result<seq<PyValue>, SafeError>
    decreases items, 0
  {
    if items == [] then Ok([])
    else match JsonSafe(items[0], depth)
      case Err(error) => Err(error)
      case Ok(first) =>
        match ItemsSafe(items[1..], depth)
        case Err(error) => Err(error)
        case Ok(rest) => Ok([first] + rest)
  }

  function EntriesSafe(entries: seq<(Key, PyValue)>, depth: nat): Result<seq<(Key, PyValue)>, SafeError>
    decreases entries, 0
  {
    if entries == [] then Ok([])
    else match EntrySafe(entries[0], depth)
      case Err(error) => Err(error)
      case Ok(first) =>
        match EntriesSafe(entries[1..], depth)
        case Err(error) => Err(error)
        case Ok(rest) => Ok([first] + rest)
  }

  function EntrySafe(entry: (Key, PyValue), depth: nat): Result<(Key, PyValue), SafeError>
    decreases entry, 0
  {
    match JsonSafe(entry.1, depth)
    case Err(error) => Err(error)
    case Ok(value) => Ok((entry.0, value))
  }

  // Bindings

  type Bindings = seq<(string, PyValue)>

  function Find(b: Bindings, name: string): Option<PyValue> {
    if b == [] then None
    else if b[0].0 == name then Some(b[0].1)
    else Find(b[1..], name)
  }

  /** `namespace[name] = value`. */
  function Bind(b: Bindings, name: string, value: PyValue): Bindings {
    if b == [] then [(name, value)]
    else if b[0].0 == name then [(name, value)] + b[1..]
    else [b[0]] + Bind(b[1..], name, value)
  }

  /** `namespace.update(values)`. */
  function Update(b: Bindings, values: Bindings): Bindings
    decreases |values|
  {
    if values == [] then b else Update(Bind(b, values[0].0, values[0].1), values[1..])
  }

  predicate Eligible(name: string) {
    !StartsWith(name, "_") && name != "haf" && name != "Path"
  }

  function Saved(b: Bindings): Bindings {
    if b == [] then []
    else if Eligible(b[0].0) && JsonSafe(b[0].1, 0).Ok? then [(b[0].0, JsonSafe(b[0].1, 0).value)] + Saved(b[1..])
    else Saved(b[1..])
  }

  function Skipped(b: Bindings): seq<(string, SafeError)> {
    if b == [] then []
    else if Eligible(b[0].0) && JsonSafe(b[0].1, 0).Err? then [(b[0].0, JsonSafe(b[0].1, 0).error)] + Skipped(b[1..])
    else Skipped(b[1..])
  }

  // The file

  function NamedEntries(b: Bindings): (r: seq<(Key, PyValue)>)
    ensures |r| == |b| && forall i :: 0 <= i < |r| ==> r[i] == (Name(b[i].0), b[i].1)
  {
    seq(|b|, i requires 0 <= i < |b| => (Name(b[i].0), b[i].1))
  }

  function SnapshotFile(values: Bindings): PyValue {
    Dict([(Name("version"), Int(1)), (Name("values"), Dict(NamedEntries(values)))])
  }

  /** `data.get(name)`, for a dictionary of names. */
  function Item(entries: seq<(Key, PyValue)>, name: string): Option<PyValue> {
    if entries == [] then None
    else if entries[0].0 == Name(name) then Some(entries[0].1)
    else Item(entries[1..], name)
  }

  function Names(entries: seq<(Key, PyValue)>): Bindings {
    if entries == [] then []
    else if entries[0].0.Name? then [(entries[0].0.s, entries[0].1)] + Names(entries[1..])
    else Names(entries[1..])
  }

  datatype RestoreError = NotAnObject | InvalidSnapshot

  /** The bindings a snapshot file gives, if there is a file and it is one. */
  function FileValues(file: Option<PyValue>): Result<Bindings, RestoreError> {
    match file
    case None => Ok([])
    case Some(data) =>
      if !data.Dict? then Err(NotAnObject)
      else
        match Item(data.entries, "values")
        case None => Ok([])
        case Some(values) => if values.Dict? then Ok(Names(values.entries)) else Err(InvalidSnapshot)
  }

  class Namespace {
    var bindings: Bindings

    constructor (bindings: Bindings)
      ensures this.bindings == bindings
    {
      this.bindings := bindings;
    }

    method Snapshot() returns (file: PyValue, saved: Bindings, skipped: seq<(string, SafeError)>)
      ensures saved == Saved(bindings) && skipped == Skipped(bindings) && file == SnapshotFile(saved)
    {
      saved, skipped := [], [];
      assert bindings[0..] == bindings;
      for i := 0 to |bindings|
        invariant Saved(bindings) == saved + Saved(bindings[i..])
        invariant Skipped(bindings) == skipped + Skipped(bindings[i..])
      {
        assert bindings[i..][1..] == bindings[i + 1..];
        var (key, value) := bindings[i];
        if StartsWith(key, "_") || key == "haf" || key == "Path" {
          continue;
        }
        var safe := JsonSafe(value, 0);
        match safe {
          case Ok(v) =>
            Associative(saved, [(key, v)], Saved(bindings[i + 1..]));
            saved := saved + [(key, v)];
          case Err(error) =>
            Associative(skipped, [(key, error)], Skipped(bindings[i + 1..]));
            skipped := skipped + [(key, error)];
        }
      }
      file := SnapshotFile(saved);
    }

    method Restore(file: Option<PyValue>) returns (r: Result<Bindings, RestoreError>)
      modifies this
      ensures r == FileValues(file)
      ensures bindings == if r.Ok? then Update(old(bindings), r.value) else old(bindings)
    {
      r := FileValues(file);
      if r.Ok? {
        var values := r.value;
        assert values[0..] == values;
        for i := 0 to |values|
          invariant Update(old(bindings), values) == Update(bindings, values[i..])
        {
          assert values[i..][1..] == values[i + 1..];
          bindings := Bind(bindings, values[i].0, values[i].1);
        }
      }
    }
  }
}
