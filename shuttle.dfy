/** The module-level state of src/shuttle.tsx and the two procedures that
    fill it: `processList` and `processItem` push one record per leaf onto the
    array `hosts` while walking the catalog, and an exception escapes from
    wherever it is raised. */
module Shuttle {
  import opened Values
  import opened Outcomes
  import opened Flattening

  /** The array `hosts` (src/shuttle.tsx:12). A thrown exception is returned
      as `Some(error)`, and every caller returns it at once, as a JavaScript
      `throw` unwinds. */
  class HostList {
    var hosts: seq<Host>

    /** `let hosts = []` */
    constructor ()
      ensures hosts == []
    {
      hosts := [];
    }

    /** `processList(list, path)`: nothing unless `list` is an array, then
        `processItem(path, item)` for each item in order. */
    method ProcessList(list: Json, path: seq<string>) returns (thrown: Option<TypeError>)
      modifies this
      ensures hosts == old(hosts) + Run(ListStops(list, path)).values
      ensures thrown == Run(ListStops(list, path)).thrown
      decreases ListSize(list), 1
    {
      if !list.JArr? {
        RunEmpty();
        return None;
      }
      var items := list.items;
      ArrayStops(list, path);
      var i := 0;
      ItemsEmptyRun(items, path);
      while i < |items|
        invariant 0 <= i <= |items|
        invariant hosts == old(hosts) + Run(ItemsStops(items[..i], path)).values
        invariant Run(ItemsStops(items[..i], path)).thrown == None
      {
        var item := items[i];
        ItemSmaller(items, i);
        ItemsAdvance(items, i, path, old(hosts));
        thrown := ProcessItem(path, item);
        if thrown.Some? {
          return;
        }
        i := i + 1;
      }
      assert items[..i] == items;
      thrown := None;
    }

    /** `processItem(path, item)`: reading `item.name` throws on `null`; a
        leaf gets one record pushed; anything else has each of its entries
        processed as a list under the path extended by the entry's key. */
    method ProcessItem(path: seq<string>, item: Json) returns (thrown: Option<TypeError>)
      modifies this
      ensures hosts == old(hosts) + Run(ItemStops(item, path)).values
      ensures thrown == Run(ItemStops(item, path)).thrown
      decreases Size(item), 0
    {
      if item.JNull? {
        NullRun(path);
        return Some(NullRead("name"));
      }
      if IsLeaf(item) {
        var record := MakeHost(path, Field(item, "name").value, Field(item, "cmd").value);
        LeafRun(item, path);
        if record.Err? {
          return Some(record.error);
        }
        hosts := hosts + [record.value];
        return None;
      }
      GroupStops(item, path);
      thrown := ProcessEntries(Entries(item), path);
    }

    /** The loop over `Object.entries(item)` at the end of `processItem`:
        `processList(value, path.concat([key]))` for each entry in order. */
    method ProcessEntries(entries: seq<Member>, path: seq<string>) returns (thrown: Option<TypeError>)
      modifies this
      ensures hosts == old(hosts) + Run(MembersStops(entries, path)).values
      ensures thrown == Run(MembersStops(entries, path)).thrown
      decreases SizeMembers(entries), 2
    {
      var i := 0;
      MembersEmptyRun(entries, path);
      while i < |entries|
        invariant 0 <= i <= |entries|
        invariant hosts == old(hosts) + Run(MembersStops(entries[..i], path)).values
        invariant Run(MembersStops(entries[..i], path)).thrown == None
      {
        var key, value := entries[i].key, entries[i].value;
        MemberSmaller(entries, i);
        MembersAdvance(entries, i, path, old(hosts));
        thrown := ProcessList(value, path + [key]);
        if thrown.Some? {
          return;
        }
        i := i + 1;
      }
      assert entries[..i] == entries;
      thrown := None;
    }

    /** `processList(config.hosts)` (src/shuttle.tsx:43). The records pushed
        before an exception stay in `hosts`; the exception aborts loading. */
    method Load(config: Json) returns (thrown: Option<TypeError>)
      modifies this
      ensures thrown.None? <==> Flatten(config).Ok?
      ensures Flatten(config).Ok? ==> hosts == old(hosts) + Flatten(config).value
      ensures Flatten(config).Err? ==> thrown == Some(Flatten(config).error)
      ensures config.JNull? ==> hosts == old(hosts)
      ensures !config.JNull? ==> hosts == old(hosts) + Run(ConfigStops(config)).values
    {
      if config.JNull? {
        return Some(NullRead("hosts"));
      }
      var list := Field(config, "hosts");
      if list.None? {
        return None;
      }
      thrown := ProcessList(list.value, []);
    }
  }
}
