/** The two filters of `filters.py`: hosts grouped by a variable, and the variable by host. */
module HostGroups {
  import opened Prelude

  type Host = string

  /** A host variable. Numbers are real, and booleans are the numbers 0 and 1, as which Python compares them. */
  datatype Value = Null | Num(r: real) | Text(s: string) | List(items: seq<Value>) | Dict(entries: map<string, Value>)

  /** The filter's own error, raised for a missing key, and the errors it lets through. */
  datatype FilterError = NotFound(host: Host) | TypeError | AttributeError

  /** The hosts in the order of the dictionary, with their variables. */
  datatype HostVarsData = HostVarsData(order: seq<Host>, vars: map<Host, map<string, Value>>) {
    ghost predicate WellFormed() {
      NoDuplicates(order) && forall h :: h in order <==> h in vars
    }
  }

  type HostVars = d: HostVarsData | d.WellFormed() witness HostVarsData([], map[])

  /** What may be the key of a dictionary. */
  predicate Hashable(v: Value) {
    !v.List? && !v.Dict?
  }

  predicate Truthy(v: Value) {
    match v
    case Null => false
    case Num(r) => r != 0.0
    case Text(s) => s != ""
    case List(items) => items != []
    case Dict(entries) => entries != map[]
  }

  /** `v[subkey]` */
  function Subscript(host: Host, v: Value, subkey: string): Result<Value, FilterError> {
    if !v.Dict? then Err(TypeError)
    else if subkey !in v.entries then Err(NotFound(host))
    else Ok(v.entries[subkey])
  }

  /** The variable of the host, or its entry for the subkey. */
  function Selected(d: HostVars, host: Host, name: string, subkey: Option<string>): Result<Value, FilterError>
    requires host in d.vars
  {
    if name !in d.vars[host] then Err(NotFound(host))
    else if subkey.None? then Ok(d.vars[host][name])
    else Subscript(host, d.vars[host][name], subkey.value)
  }

  // -----------------------------------------------------------------------------------------------
  // Groups and entries, for any way to get a value from a host
  // -----------------------------------------------------------------------------------------------

  /** The hosts whose key is the value, in order. */
  ghost function HostsUnder(order: seq<Host>, key: Host -> Option<Value>, v: Value): seq<Host> {
    if order == [] then []
    else
      var last := order[|order| - 1];
      HostsUnder(order[..|order| - 1], key, v) + if key(last) == Some(v) then [last] else []
  }

  /** Every group is the list of hosts under its value, and there is a group for each value that some host has. */
  ghost predicate Groups(order: seq<Host>, key: Host -> Option<Value>, groups: map<Value, seq<Host>>) {
    && (forall v :: v in groups ==> groups[v] == HostsUnder(order, key, v) && groups[v] != [])
    && (forall v :: v !in groups ==> HostsUnder(order, key, v) == [])
  }

  /** Every host has its entry. */
  ghost predicate Entries(order: seq<Host>, entry: Host -> Option<Value>, result: map<Host, Value>) {
    && (forall h :: h in result <==> h in order)
    && (forall h :: h in result ==> entry(h) == Some(result[h]))
  }

  ghost predicate AllDefined(order: seq<Host>, f: Host -> Option<Value>) {
    forall h :: h in order ==> f(h).Some?
  }

  lemma GroupsNext(order: seq<Host>, key: Host -> Option<Value>, groups: map<Value, seq<Host>>, h: Host, v: Value)
    requires Groups(order, key, groups) && key(h) == Some(v)
    ensures Groups(order + [h], key, groups[v := (if v in groups then groups[v] else []) + [h]])
  {
    assert (order + [h])[..|order|] == order;
    var next := groups[v := (if v in groups then groups[v] else []) + [h]];
    forall w ensures HostsUnder(order + [h], key, w) == HostsUnder(order, key, w) + if w == v then [h] else [] {
    }
  }

  lemma {:induction false} UnderMember(order: seq<Host>, key: Host -> Option<Value>, v: Value, h: Host)
    ensures h in HostsUnder(order, key, v) <==> h in order && key(h) == Some(v)
  {
    if order != [] {
      var init, last := order[..|order| - 1], order[|order| - 1];
      UnderMember(init, key, v, h);
      assert order == init + [last];
    }
  }

  lemma {:induction false} UnderDistinct(order: seq<Host>, key: Host -> Option<Value>, v: Value)
    requires NoDuplicates(order)
    ensures NoDuplicates(HostsUnder(order, key, v))
  {
    if order != [] {
      var init, last := order[..|order| - 1], order[|order| - 1];
      UnderDistinct(init, key, v);
      UnderMember(init, key, v, last);
      var hosts := HostsUnder(init, key, v);
      assert forall i :: 0 <= i < |hosts| ==> hosts[i] in hosts;
      assert last !in init;
    }
  }

  /** Grouping is a partition: every host is in the group of its key, once, and in no other group. */
  lemma GroupsPartition(order: seq<Host>, key: Host -> Option<Value>, groups: map<Value, seq<Host>>, h: Host, v: Value)
    requires Groups(order, key, groups) && NoDuplicates(order) && h in order
    ensures v in groups && h in groups[v] <==> key(h) == Some(v)
    ensures key(h) == Some(v) ==> multiset(groups[v])[h] == 1
  {
    UnderMember(order, key, v, h);
    if key(h) == Some(v) {
      UnderDistinct(order, key, v);
      OnceIn(groups[v], h);
    }
  }

  lemma {:induction false} OnceIn<T>(s: seq<T>, x: T)
    requires NoDuplicates(s) && x in s
    ensures multiset(s)[x] == 1
  {
    var k := |s| - 1;
    assert s == s[..k] + [s[k]];
    if s[k] == x {
      assert x !in s[..k];
    } else {
      OnceIn(s[..k], x);
    }
  }

  /** The value of each host, read off the groups. */
  ghost function Ungrouped(groups: map<Value, seq<Host>>): set<(Host, Value)> {
    set v, h | v in groups && h in groups[v] :: (h, v)
  }

  /** Flattening the groups restores the key of every host. */
  lemma UngroupedIsInverse(order: seq<Host>, key: Host -> Option<Value>, groups: map<Value, seq<Host>>, h: Host,
                           v: Value)
    requires Groups(order, key, groups)
    ensures (h, v) in Ungrouped(groups) <==> h in order && key(h) == Some(v)
  {
    UnderMember(order, key, v, h);
  }

  lemma EntriesNext(order: seq<Host>, entry: Host -> Option<Value>, result: map<Host, Value>, h: Host, v: Value)
    requires Entries(order, entry, result) && entry(h) == Some(v)
    ensures Entries(order + [h], entry, result[h := v])
  {
  }

  /** The groups and the entries assign the same values to hosts. */
  ghost predicate SameAssignment(groups: map<Value, seq<Host>>, result: map<Host, Value>) {
    forall h, v :: (h, v) in Ungrouped(groups) <==> h in result && result[h] == v
  }

  // -----------------------------------------------------------------------------------------------
  // group_hostvars_by_var
  // -----------------------------------------------------------------------------------------------

  /** The key that the host is grouped under. */
  function GroupKey(d: HostVars, host: Host, name: string, subkey: Option<string>): Result<Value, FilterError>
    requires host in d.vars
  {
    var v := Selected(d, host, name, subkey);
    if v.Ok? && !Hashable(v.value) then Err(TypeError) else v
  }

  ghost function KeyOf(d: HostVars, name: string, subkey: Option<string>): Host -> Option<Value> {
    h => if h in d.vars && GroupKey(d, h, name, subkey).Ok? then Some(GroupKey(d, h, name, subkey).value) else None
  }

  /** The values in the order in which hosts first have them. */
  function FirstSeen(order: seq<Host>, key: Host -> Option<Value>): seq<Value> {
    if order == [] then []
    else
      var values, v := FirstSeen(order[..|order| - 1], key), key(order[|order| - 1]);
      if v.None? || v.value in values then values else values + [v.value]
  }

  /** The groups in the order in which they were made. */
  datatype Grouping = Grouping(order: seq<Value>, hosts: map<Value, seq<Host>>)

  lemma {:induction false} FirstSeenOnce(order: seq<Host>, key: Host -> Option<Value>)
    ensures NoDuplicates(FirstSeen(order, key))
    ensures forall v :: v in FirstSeen(order, key) <==> HostsUnder(order, key, v) != []
  {
    if order != [] {
      FirstSeenOnce(order[..|order| - 1], key);
    }
  }

  lemma FirstSeenNext(order: seq<Host>, key: Host -> Option<Value>, h: Host, v: Value)
    requires key(h) == Some(v)
    ensures FirstSeen(order + [h], key) == FirstSeen(order, key) + if v in FirstSeen(order, key) then [] else [v]
  {
    assert (order + [h])[..|order|] == order;
  }

  ghost predicate Grouped(order: seq<Host>, key: Host -> Option<Value>, g: Grouping) {
    Groups(order, key, g.hosts) && g.order == FirstSeen(order, key)
  }

  /** One more host joins the group of its value, or opens a group at the end. */
  method AddToGroup(g: Grouping, host: Host, v: Value, ghost order: seq<Host>, ghost key: Host -> Option<Value>)
    returns (next: Grouping)
    requires Grouped(order, key, g) && key(host) == Some(v)
    ensures Grouped(order + [host], key, next)
  {
    GroupsNext(order, key, g.hosts, host, v);
    FirstSeenNext(order, key, host, v);
    FirstSeenOnce(order, key);
    if v in g.hosts {
      next := Grouping(g.order, g.hosts[v := g.hosts[v] + [host]]);
    } else {
      next := Grouping(g.order + [v], g.hosts[v := [host]]);
    }
  }

  /** The first host without a value ends the filter, with the error for that host. */
  ghost predicate StopsAt(order: seq<Host>, f: Host -> Option<Value>, k: int) {
    0 <= k < |order| && f(order[k]).None? && forall h :: h in order[..k] ==> f(h).Some?
  }

  method GroupHostvarsByVar(d: HostVars, name: string, subkey: Option<string>)
    returns (r: Result<Grouping, FilterError>)
    ensures r.Ok? ==> Grouped(d.order, KeyOf(d, name, subkey), r.value) && AllDefined(d.order, KeyOf(d, name, subkey))
    ensures r.Err? ==> exists k :: StopsAt(d.order, KeyOf(d, name, subkey), k) && d.order[k] in d.vars
                                   && GroupKey(d, d.order[k], name, subkey) == Err(r.error)
  {
    var g := Grouping([], map[]);
    ghost var key := KeyOf(d, name, subkey);
    for i := 0 to |d.order|
      invariant Grouped(d.order[..i], key, g) && AllDefined(d.order[..i], key)
    {
      var host := d.order[i];
      assert host in d.order && d.order[..i + 1] == d.order[..i] + [host];
      var v := GroupKey(d, host, name, subkey);
      if v.Err? {
        assert StopsAt(d.order, key, i);
        return Err(v.error);
      }
      g := AddToGroup(g, host, v.value, d.order[..i], key);
    }
    assert d.order[..|d.order|] == d.order;
    r := Ok(g);
  }

  // -----------------------------------------------------------------------------------------------
  // get_hostvars_by_host
  // -----------------------------------------------------------------------------------------------

  /** The host's entry in the result: an empty list stands for every falsy value. */
  function HostEntry(d: HostVars, host: Host, name: string, subkey: Option<string>): Result<Value, FilterError>
    requires host in d.vars
  {
    if name in d.vars[host] && !d.vars[host][name].Dict? then Err(AttributeError)
    else
      var v := Selected(d, host, name, subkey);
      if v.Ok? && !Truthy(v.value) then Ok(List([])) else v
  }

  ghost function EntryOf(d: HostVars, name: string, subkey: Option<string>): Host -> Option<Value> {
    h => if h in d.vars && HostEntry(d, h, name, subkey).Ok? then Some(HostEntry(d, h, name, subkey).value) else None
  }

  /** The loop that looks for a skipped task changes at most the host's own entry. */
  method MarkSkipped(result: map<Host, Value>, host: Host, keys: set<string>) returns (marked: map<Host, Value>)
    ensures marked == if "skipped" in keys then result[host := Text("No data")] else result
  {
    marked := result;
    var todo := keys;
    while todo != {}
      invariant todo <= keys
      invariant marked == if "skipped" in keys - todo then result[host := Text("No data")] else result
    {
      var key :| key in todo;
      todo := todo - {key};
      if key == "skipped" {
        marked := marked[host := Text("No data")];
      }
    }
  }

  /** One host; the marker of a skipped task is always replaced. */
  method AddEntry(d: HostVars, name: string, subkey: Option<string>, result: map<Host, Value>, host: Host)
    returns (r: Result<map<Host, Value>, FilterError>)
    requires host in d.vars
    ensures var entry := HostEntry(d, host, name, subkey);
            r == if entry.Err? then Err(entry.error) else Ok(result[host := entry.value])
  {
    if name !in d.vars[host] {
      return Err(NotFound(host));
    }
    var hostVar := d.vars[host][name];
    if !hostVar.Dict? {
      return Err(AttributeError);
    }
    var marked := MarkSkipped(result, host, hostVar.entries.Keys);
    if subkey.Some? {
      if subkey.value !in hostVar.entries {
        return Err(NotFound(host));
      }
      hostVar := hostVar.entries[subkey.value];
    }
    var v := if Truthy(hostVar) then hostVar else List([]);
    assert marked[host := v] == result[host := v];
    r := Ok(marked[host := v]);
  }

  method GetHostvarsByHost(d: HostVars, name: string, subkey: Option<string>)
    returns (r: Result<map<Host, Value>, FilterError>)
    ensures r.Ok? ==> Entries(d.order, EntryOf(d, name, subkey), r.value)
    ensures r.Err? ==> exists k :: StopsAt(d.order, EntryOf(d, name, subkey), k) && d.order[k] in d.vars
                                   && HostEntry(d, d.order[k], name, subkey) == Err(r.error)
  {
    var result: map<Host, Value> := map[];
    ghost var entry := EntryOf(d, name, subkey);
    for i := 0 to |d.order|
      invariant Entries(d.order[..i], entry, result)
    {
      var host := d.order[i];
      assert host in d.order && d.order[..i + 1] == d.order[..i] + [host];
      var next := AddEntry(d, name, subkey, result, host);
      if next.Err? {
        assert StopsAt(d.order, entry, i);
        return next;
      }
      EntriesNext(d.order[..i], entry, result, host, next.value[host]);
      result := next.value;
    }
    assert d.order[..|d.order|] == d.order;
    r := Ok(result);
  }

  // -----------------------------------------------------------------------------------------------
  // Values and errors, spelled out
  // -----------------------------------------------------------------------------------------------

  /** The host has the variable, and this is its value, or the value of its entry for the subkey. */
  ghost predicate HasValue(vars: map<string, Value>, name: string, subkey: Option<string>, v: Value) {
    name in vars &&
    match subkey
    case None => v == vars[name]
    case Some(key) => exists entries :: vars[name] == Dict(entries) && key in entries && v == entries[key]
  }

  /** The host lacks the variable, or the variable is a dictionary that lacks the subkey. */
  ghost predicate Lacks(vars: map<string, Value>, name: string, subkey: Option<string>) {
    || name !in vars
    || (subkey.Some? && exists entries :: vars[name] == Dict(entries) && subkey.value !in entries)
  }

  /** A value that Python takes for false. */
  ghost predicate IsEmpty(v: Value) {
    v == Null || v == Num(0.0) || v == Text("") || v == List([]) || v == Dict(map[])
  }

  lemma SelectedIff(d: HostVars, host: Host, name: string, subkey: Option<string>, v: Value)
    requires host in d.vars
    ensures Selected(d, host, name, subkey) == Ok(v) <==> HasValue(d.vars[host], name, subkey, v)
    ensures Selected(d, host, name, subkey) == Err(NotFound(host)) <==> Lacks(d.vars[host], name, subkey)
  {
    if name in d.vars[host] && d.vars[host][name].Dict? {
      assert d.vars[host][name] == Dict(d.vars[host][name].entries);
    }
  }

  /** A host is grouped under its value, which may be no list and no dictionary. */
  lemma GroupKeyIff(d: HostVars, host: Host, name: string, subkey: Option<string>, v: Value)
    requires host in d.vars
    ensures KeyOf(d, name, subkey)(host) == Some(v) <==>
            HasValue(d.vars[host], name, subkey, v) && (forall items :: v != List(items))
                && (forall entries :: v != Dict(entries))
    ensures GroupKey(d, host, name, subkey) == Err(NotFound(host)) <==> Lacks(d.vars[host], name, subkey)
  {
    SelectedIff(d, host, name, subkey, v);
    if v.List? { assert v == List(v.items); }
    if v.Dict? { assert v == Dict(v.entries); }
  }

  /** The entry of a host is its value where that is not empty, and an empty list where it is. */
  lemma HostEntryIff(d: HostVars, host: Host, name: string, subkey: Option<string>, e: Value)
    requires host in d.vars
    ensures EntryOf(d, name, subkey)(host) == Some(e) <==>
            && (exists entries :: name in d.vars[host] && d.vars[host][name] == Dict(entries))
            && exists v :: HasValue(d.vars[host], name, subkey, v) && e == if IsEmpty(v) then List([]) else v
    ensures HostEntry(d, host, name, subkey) == Err(NotFound(host)) <==> Lacks(d.vars[host], name, subkey)
  {
    if name in d.vars[host] && d.vars[host][name].Dict? {
      assert d.vars[host][name] == Dict(d.vars[host][name].entries);
      var selected := Selected(d, host, name, subkey);
      if selected.Ok? {
        SelectedIff(d, host, name, subkey, selected.value);
        assert Truthy(selected.value) <==> !IsEmpty(selected.value);
        forall v | HasValue(d.vars[host], name, subkey, v) ensures v == selected.value {
          SelectedIff(d, host, name, subkey, v);
        }
      } else {
        forall v ensures !HasValue(d.vars[host], name, subkey, v) { SelectedIff(d, host, name, subkey, v); }
      }
    }
  }

  /** Where the filter succeeds, every host has an entry: its value, or an empty list where that is empty. */
  lemma EntriesExact(d: HostVars, name: string, subkey: Option<string>, result: map<Host, Value>, host: Host)
    requires Entries(d.order, EntryOf(d, name, subkey), result) && host in d.vars
    ensures host in result
    ensures exists v :: HasValue(d.vars[host], name, subkey, v) && result[host] == if IsEmpty(v) then List([]) else v
  {
    assert host in d.order;
    HostEntryIff(d, host, name, subkey, result[host]);
  }

  /**
    The group of a value is the hosts that have it, in input order, and groups come in the order of their first hosts.
  */
  lemma {:induction false} OrderKept(order: seq<Host>, key: Host -> Option<Value>, k: nat)
    requires k <= |order|
    ensures FirstSeen(order[..k], key) <= FirstSeen(order, key)
    ensures forall v :: HostsUnder(order[..k], key, v) <= HostsUnder(order, key, v)
  {
    if k == |order| {
      assert order[..k] == order;
    } else {
      var init := order[..|order| - 1];
      assert init[..k] == order[..k];
      OrderKept(init, key, k);
    }
  }

  // -----------------------------------------------------------------------------------------------
  // The two filters together
  // -----------------------------------------------------------------------------------------------

  /** A host that both filters accept has its key as its entry exactly when the key is truthy. */
  lemma KeyIsEntryIff(d: HostVars, name: string, subkey: Option<string>, h: Host)
    requires KeyOf(d, name, subkey)(h).Some? && EntryOf(d, name, subkey)(h).Some?
    ensures KeyOf(d, name, subkey)(h) == EntryOf(d, name, subkey)(h) <==> Truthy(KeyOf(d, name, subkey)(h).value)
  {
  }

  /** The groups and the entries say the same exactly when every grouped value is truthy. */
  lemma FiltersAgreeIff(d: HostVars, name: string, subkey: Option<string>, groups: map<Value, seq<Host>>,
                        result: map<Host, Value>)
    requires Groups(d.order, KeyOf(d, name, subkey), groups) && AllDefined(d.order, KeyOf(d, name, subkey))
    requires Entries(d.order, EntryOf(d, name, subkey), result)
    ensures SameAssignment(groups, result) <==> forall v :: v in groups ==> Truthy(v)
  {
    var key, entry := KeyOf(d, name, subkey), EntryOf(d, name, subkey);
    forall h | h in d.order ensures key(h) == entry(h) <==> Truthy(key(h).value) {
      assert h in result;
      KeyIsEntryIff(d, name, subkey, h);
    }
    AssignmentsAgreeIff(d.order, key, entry, groups, result);
  }

  lemma AssignmentsAgreeIff(order: seq<Host>, key: Host -> Option<Value>, entry: Host -> Option<Value>,
                            groups: map<Value, seq<Host>>, result: map<Host, Value>)
    requires Groups(order, key, groups) && AllDefined(order, key) && Entries(order, entry, result)
    requires forall h :: h in order ==> (key(h) == entry(h) <==> Truthy(key(h).value))
    ensures SameAssignment(groups, result) <==> forall v :: v in groups ==> Truthy(v)
  {
    if forall v :: v in groups ==> Truthy(v) {
      forall h, v ensures (h, v) in Ungrouped(groups) <==> h in result && result[h] == v {
        UngroupedIsInverse(order, key, groups, h, v);
        if h in order { UngroupedIsInverse(order, key, groups, h, key(h).value); }
      }
    } else {
      var v :| v in groups && !Truthy(v);
      var h := groups[v][0];
      assert h in groups[v] && (h, v) in Ungrouped(groups);
      UngroupedIsInverse(order, key, groups, h, v);
    }
  }
}
