/** What loading the catalog computes (src/shuttle.tsx:14-43), stated as
    values: the places where `processItem` stops descending, in the order it
    reaches them, and the host records built from them one after another
    until the first exception. The step-by-step procedure that appends to
    the module-level array is in module Shuttle and is proved equal to this. */
module Flattening {
  import opened Values
  import opened Extraction
  import opened Outcomes

  /** One entry of the flattened list. `name` is whatever truthy value the
      catalog held, copied as it is; `cmd` is known to be a string because
      extraction calls string methods on it. */
  datatype Host = Host(
    name: Json,
    cmd: string,
    path: seq<string>,
    comment: string,
    ip: Option<string>,
    user: string)

  /** `item.name && item.cmd` is truthy. Only an object can have either
      property; on `null` the test throws instead (see `ItemStops`). */
  predicate IsLeaf(item: Json) {
    !item.JNull? && TruthyField(Field(item, "name")) && TruthyField(Field(item, "cmd"))
  }

  /** A place where `processItem` stops descending: a `null` item, whose
      `name` cannot be read, or a leaf entry, with the `path` passed to it. */
  datatype Stop =
    | NullItem(path: seq<string>)
    | Leaf(path: seq<string>, name: Json, cmd: Json)

  /** The stops below `processList(list, path)`, in the order reached: none
      unless `list` is an array. */
  function ListStops(list: Json, path: seq<string>): (r: seq<Stop>)
    ensures !list.JArr? ==> r == []
    decreases ListSize(list), 2
  {
    if list.JArr? then
      assert ListSize(list) == 1 + SizeItems(list.items);
      ItemsStops(list.items, path)
    else []
  }

  /** The stops below each item of a list in turn, all with the list's path. */
  function ItemsStops(items: seq<Json>, path: seq<string>): seq<Stop>
    decreases SizeItems(items), 1
  {
    if items == [] then []
    else
      var n := |items| - 1;
      ItemsStops(items[..n], path) + ItemStops(items[n], path)
  }

  /** The stops below `processItem(path, item)`: the item itself when it is
      `null` or a leaf, whatever other keys a leaf has; otherwise those below
      each of its entries, each with the path extended by the entry's key. */
  function ItemStops(item: Json, path: seq<string>): seq<Stop>
    decreases Size(item), 0
  {
    if item.JNull? then [NullItem(path)]
    else if IsLeaf(item) then [LeafOf(path, item)]
    else MembersStops(Entries(item), path)
  }

  /** The stop at a leaf: its path and its `name` and `cmd` values. */
  function LeafOf(path: seq<string>, item: Json): (s: Stop)
    requires IsLeaf(item)
    ensures s.Leaf? && s.path == path && Truthy(s.name) && Truthy(s.cmd)
    ensures item.JObj? && Lookup(item.members, "name") == Some(s.name) && Lookup(item.members, "cmd") == Some(s.cmd)
  {
    Leaf(path, Field(item, "name").value, Field(item, "cmd").value)
  }

  function MembersStops(ms: seq<Member>, path: seq<string>): seq<Stop>
    decreases SizeMembers(ms), 1
  {
    if ms == [] then []
    else
      var n := |ms| - 1;
      MembersStops(ms[..n], path) + ListStops(ms[n].value, path + [ms[n].key])
  }

  /** Building the record for a leaf (src/shuttle.tsx:26-33). `cmd.indexOf`
      runs before `cmd.substring` is called, so a value without `indexOf`
      fails there; an array has `indexOf` but no `substring`. */
  function MakeHost(path: seq<string>, name: Json, cmd: Json): (r: Result<Host>)
    ensures r.Ok? <==> cmd.JStr? && Extract(cmd.s).Ok?
    ensures r.Ok? ==> r.value.name == name && JStr(r.value.cmd) == cmd && r.value.path == path
    ensures r.Ok? ==> Extract(cmd.s) == Ok(Fields(r.value.comment, r.value.ip, r.value.user))
    ensures cmd.JStr? && r.Err? ==> Extract(cmd.s) == Err(r.error)
    ensures cmd.JArr? ==> r == Err(NotCallable("substring"))
    ensures !cmd.JStr? && !cmd.JArr? ==> r == Err(NotCallable("indexOf"))
  {
    if cmd.JArr? then Err(NotCallable("substring"))
    else if !cmd.JStr? then Err(NotCallable("indexOf"))
    else
      match Extract(cmd.s)
      case Err(e) => Err(e)
      case Ok(f) => Ok(Host(name, cmd.s, path, f.comment, f.ip, f.user))
  }

  /** What `processItem` does at a stop: throw, or produce one record. */
  function Emit(stop: Stop): Result<Host> {
    match stop
    case NullItem(_) => Err(NullRead("name"))
    case Leaf(path, name, cmd) => MakeHost(path, name, cmd)
  }

  /** The results of the stops, in order. */
  function Emits(stops: seq<Stop>): seq<Result<Host>> {
    Map(Emit, stops)
  }

  /** Visiting the stops in order: the records appended, and the exception
      thrown if any. */
  function Run(stops: seq<Stop>): Outcome<Host> {
    Collect(Emits(stops))
  }

  /** `processList(config.hosts)` at the top of the module: reading `hosts`
      of `null` throws; a missing `hosts` is not an array and yields nothing. */
  function ConfigStops(config: Json): seq<Stop>
    requires !config.JNull?
  {
    match Field(config, "hosts")
    case None => []
    case Some(list) => ListStops(list, [])
  }

  /** The host list the module builds from the parsed configuration, or the
      exception that aborts loading it. */
  function Flatten(config: Json): (r: Result<seq<Host>>)
    ensures config.JNull? ==> r == Err(NullRead("hosts"))
    ensures !config.JNull? && r.Ok? ==>
              |r.value| == |ConfigStops(config)| &&
              forall k :: 0 <= k < |r.value| ==> Emit(ConfigStops(config)[k]) == Ok(r.value[k])
    ensures !config.JNull? && r.Err? ==>
              exists k :: 0 <= k < |ConfigStops(config)| && Emit(ConfigStops(config)[k]) == Err(r.error) &&
                forall k' :: 0 <= k' < k ==> Emit(ConfigStops(config)[k']).Ok?
  {
    if config.JNull? then Err(NullRead("hosts"))
    else
      CollectSteps(Emits(ConfigStops(config)));
      var o := Run(ConfigStops(config));
      if o.thrown.Some? then Err(o.thrown.value) else Ok(o.values)
  }

  lemma EmitsAppend(a: seq<Stop>, b: seq<Stop>)
    ensures Emits(a + b) == Emits(a) + Emits(b)
  {
    MapAppend(Emit, a, b);
  }

  lemma RunEmpty()
    ensures Run([]) == Outcome([], None)
  {
  }

  /** Visiting a single stop: its record, or its exception. */
  lemma RunOne(s: Stop)
    ensures Run([s]) == Step(Emit(s))
  {
    assert Emits([s]) == [Emit(s)];
    CollectOne(Emit(s));
  }

  /** Visiting `a ++ b` is visiting `a`, then `b`. */
  lemma RunAppend(a: seq<Stop>, b: seq<Stop>)
    ensures Run(a + b) == Then(Run(a), Run(b))
  {
    EmitsAppend(a, b);
    CollectAppend(Emits(a), Emits(b));
  }

  /** Processing one more item of a list. */
  lemma ItemsStep(items: seq<Json>, i: nat, path: seq<string>)
    requires i < |items|
    ensures Run(ItemsStops(items[..i + 1], path)) == Then(Run(ItemsStops(items[..i], path)), Run(ItemStops(items[i], path)))
  {
    assert items[..i + 1][..i] == items[..i];
    RunAppend(ItemsStops(items[..i], path), ItemStops(items[i], path));
  }

  /** Processing `null` reads `null.name`, which throws. */
  lemma NullRun(path: seq<string>)
    ensures Run(ItemStops(JNull, path)) == Outcome([], Some(NullRead("name")))
  {
    RunOne(NullItem(path));
  }

  /** Processing a leaf builds its record, or throws while building it. */
  lemma LeafRun(item: Json, path: seq<string>)
    requires IsLeaf(item)
    ensures Run(ItemStops(item, path)) == Step(MakeHost(path, Field(item, "name").value, Field(item, "cmd").value))
  {
    LeafStops(item, path);
    RunOne(LeafOf(path, item));
  }

  /** Any other item is walked into, entry by entry. */
  lemma GroupStops(item: Json, path: seq<string>)
    requires !item.JNull? && !IsLeaf(item)
    ensures ItemStops(item, path) == MembersStops(Entries(item), path)
  {
  }

  /** An array's stops are those of its items. */
  lemma ArrayStops(list: Json, path: seq<string>)
    requires list.JArr?
    ensures ListSize(list) == 1 + SizeItems(list.items)
    ensures ListStops(list, path) == ItemsStops(list.items, path)
  {
  }

  /** Before the first item, nothing has been processed. */
  lemma ItemsEmptyRun(items: seq<Json>, path: seq<string>)
    ensures Run(ItemsStops(items[..0], path)) == Outcome([], None)
  {
    assert items[..0] == [];
  }

  /** Before the first entry, nothing has been processed. */
  lemma MembersEmptyRun(ms: seq<Member>, path: seq<string>)
    ensures Run(MembersStops(ms[..0], path)) == Outcome([], None)
  {
    assert ms[..0] == [];
  }

  /** Processing one more entry of a group. */
  lemma MembersStep(ms: seq<Member>, i: nat, path: seq<string>)
    requires i < |ms|
    ensures Run(MembersStops(ms[..i + 1], path)) ==
            Then(Run(MembersStops(ms[..i], path)), Run(ListStops(ms[i].value, path + [ms[i].key])))
  {
    assert ms[..i + 1][..i] == ms[..i];
    RunAppend(MembersStops(ms[..i], path), ListStops(ms[i].value, path + [ms[i].key]));
  }

  /** Once the items before `n` have thrown, the rest of the list is never
      processed: the outcome of the whole list is theirs. */
  lemma {:induction false} ItemsThrowStops(items: seq<Json>, n: nat, path: seq<string>)
    requires n <= |items|
    requires Run(ItemsStops(items[..n], path)).thrown.Some?
    ensures Run(ItemsStops(items, path)) == Run(ItemsStops(items[..n], path))
    decreases |items| - n
  {
    if n == |items| {
      assert items[..n] == items;
    } else {
      ItemsStep(items, n, path);
      ItemsThrowStops(items, n + 1, path);
    }
  }

  lemma {:induction false} MembersThrowStops(ms: seq<Member>, n: nat, path: seq<string>)
    requires n <= |ms|
    requires Run(MembersStops(ms[..n], path)).thrown.Some?
    ensures Run(MembersStops(ms, path)) == Run(MembersStops(ms[..n], path))
    decreases |ms| - n
  {
    if n == |ms| {
      assert ms[..n] == ms;
    } else {
      MembersStep(ms, n, path);
      MembersThrowStops(ms, n + 1, path);
    }
  }

  /** Processing item `i` of a list whose earlier items did not throw:
      its records follow theirs, its exception is the list's, and after it
      throws the remaining items are skipped. */
  lemma ItemsAdvance(items: seq<Json>, i: nat, path: seq<string>, held: seq<Host>)
    requires i < |items|
    requires Run(ItemsStops(items[..i], path)).thrown.None?
    ensures held + Run(ItemsStops(items[..i], path)).values + Run(ItemStops(items[i], path)).values ==
            held + Run(ItemsStops(items[..i + 1], path)).values
    ensures Run(ItemsStops(items[..i + 1], path)).thrown == Run(ItemStops(items[i], path)).thrown
    ensures Run(ItemStops(items[i], path)).thrown.Some? ==>
              Run(ItemsStops(items, path)) == Run(ItemsStops(items[..i + 1], path))
  {
    ItemsStep(items, i, path);
    ThenValues(held, Run(ItemsStops(items[..i], path)), Run(ItemStops(items[i], path)));
    if Run(ItemStops(items[i], path)).thrown.Some? {
      ItemsThrowStops(items, i + 1, path);
    }
  }

  /** Processing entry `i` of a group whose earlier entries did not throw. */
  lemma MembersAdvance(ms: seq<Member>, i: nat, path: seq<string>, held: seq<Host>)
    requires i < |ms|
    requires Run(MembersStops(ms[..i], path)).thrown.None?
    ensures held + Run(MembersStops(ms[..i], path)).values + Run(ListStops(ms[i].value, path + [ms[i].key])).values ==
            held + Run(MembersStops(ms[..i + 1], path)).values
    ensures Run(MembersStops(ms[..i + 1], path)).thrown == Run(ListStops(ms[i].value, path + [ms[i].key])).thrown
    ensures Run(ListStops(ms[i].value, path + [ms[i].key])).thrown.Some? ==>
              Run(MembersStops(ms, path)) == Run(MembersStops(ms[..i + 1], path))
  {
    MembersStep(ms, i, path);
    ThenValues(held, Run(MembersStops(ms[..i], path)), Run(ListStops(ms[i].value, path + [ms[i].key])));
    if Run(ListStops(ms[i].value, path + [ms[i].key])).thrown.Some? {
      MembersThrowStops(ms, i + 1, path);
    }
  }

  /** Every stop below `processList(list, path)` carries `path` extended by
      the keys of the groups it lies in. */
  lemma {:induction false} ListStopsExtendPath(list: Json, path: seq<string>)
    ensures forall s :: s in ListStops(list, path) ==> path <= s.path
    decreases ListSize(list), 2
  {
    if list.JArr? {
      assert ListSize(list) == 1 + SizeItems(list.items);
      ItemsStopsExtendPath(list.items, path);
    }
  }

  lemma {:induction false} ItemsStopsExtendPath(items: seq<Json>, path: seq<string>)
    ensures forall s :: s in ItemsStops(items, path) ==> path <= s.path
    decreases SizeItems(items), 1
  {
    if items != [] {
      var n := |items| - 1;
      ItemsStopsExtendPath(items[..n], path);
      ItemStopsExtendPath(items[n], path);
    }
  }

  lemma {:induction false} ItemStopsExtendPath(item: Json, path: seq<string>)
    ensures forall s :: s in ItemStops(item, path) ==> path <= s.path
    decreases Size(item), 0
  {
    if !item.JNull? && !IsLeaf(item) {
      MembersStopsExtendPath(Entries(item), path);
    }
  }

  lemma {:induction false} MembersStopsExtendPath(ms: seq<Member>, path: seq<string>)
    ensures forall s :: s in MembersStops(ms, path) ==> path <= s.path
    decreases SizeMembers(ms), 1
  {
    if ms != [] {
      var n := |ms| - 1;
      MembersStopsExtendPath(ms[..n], path);
      var child := path + [ms[n].key];
      ListStopsExtendPath(ms[n].value, child);
      forall s | s in ListStops(ms[n].value, child) ensures path <= s.path {
        assert path <= child <= s.path;
      }
    }
  }

  /** A leaf is a single stop, whatever other keys it has: its entries are
      never walked into. */
  lemma LeafStops(item: Json, path: seq<string>)
    requires IsLeaf(item)
    ensures ItemStops(item, path) == [LeafOf(path, item)]
  {
  }

  /** Every record of the flattened list comes from a leaf, in order, with
      its `name` and `cmd` copied unchanged and its path extending the one
      the walk started from. */
  lemma ListRecords(list: Json, path: seq<string>)
    ensures |Run(ListStops(list, path)).values| <= |ListStops(list, path)|
    ensures Run(ListStops(list, path)).thrown.None? ==> |Run(ListStops(list, path)).values| == |ListStops(list, path)|
    ensures forall k :: 0 <= k < |Run(ListStops(list, path)).values| ==>
              var s := ListStops(list, path)[k];
              var h := Run(ListStops(list, path)).values[k];
              s.Leaf? && h.path == s.path && path <= h.path && h.name == s.name && JStr(h.cmd) == s.cmd
  {
    var stops := ListStops(list, path);
    ListStopsExtendPath(list, path);
    CollectSteps(Emits(stops));
    forall k | 0 <= k < |Run(stops).values|
      ensures var h := Run(stops).values[k];
              stops[k].Leaf? && h.path == stops[k].path && path <= h.path &&
              h.name == stops[k].name && JStr(h.cmd) == stops[k].cmd
    {
      assert stops[k] in stops;
      assert Emits(stops)[k] == Emit(stops[k]);
    }
  }
}
