// Properties of source paths: a tree of directories and files whose properties are merged from
// the root down to the path asked for.
module PathTree {
  import opened Common

  datatype Value = List(items: seq<string>) | Dict(entries: map<string, string>) | Other(text: string)

  predicate IsListKey(key: string) {
    key == "cc_flags" || key == "cc_flags_after" || key == "extra_objs"
  }

  predicate IsDictKey(key: string) {
    key == "test_run_args"
  }

  predicate WellTyped(p: map<string, Value>) {
    forall key | key in p :: (IsListKey(key) ==> p[key].List?) && (IsDictKey(key) ==> p[key].Dict?)
  }

  type Props = p: map<string, Value> | WellTyped(p) witness map[]

  // ---- Merging ----

  // The later value wins, except that lists are appended to and arguments added to.
  function Merged(key: string, a: Value, b: Value): Value
    requires IsListKey(key) ==> a.List? && b.List?
    requires IsDictKey(key) ==> a.Dict? && b.Dict?
  {
    if IsListKey(key) then List(a.items + b.items)
    else if IsDictKey(key) then Dict(a.entries + b.entries)
    else b
  }

  function Merge(p: Props, q: Props): Props {
    map key | key in p.Keys + q.Keys ::
      if key !in q then p[key] else if key !in p then q[key] else Merged(key, p[key], q[key])
  }

  lemma MergedAssociative(key: string, a: Value, b: Value, c: Value)
    requires IsListKey(key) ==> a.List? && b.List? && c.List?
    requires IsDictKey(key) ==> a.Dict? && b.Dict? && c.Dict?
    ensures Merged(key, Merged(key, a, b), c) == Merged(key, a, Merged(key, b, c))
  {
    if IsListKey(key) {
      assert a.items + b.items + c.items == a.items + (b.items + c.items);
    } else if IsDictKey(key) {
      assert a.entries + b.entries + c.entries == a.entries + (b.entries + c.entries);
    }
  }

  lemma MergeAssociative(p: Props, q: Props, r: Props)
    ensures Merge(Merge(p, q), r) == Merge(p, Merge(q, r))
  {
    var left, right := Merge(Merge(p, q), r), Merge(p, Merge(q, r));
    assert left.Keys == right.Keys;
    forall key | key in left
      ensures left[key] == right[key]
    {
      if key in p && key in q && key in r {
        MergedAssociative(key, p[key], q[key], r[key]);
      }
    }
  }

  lemma MergeUnit(p: Props)
    ensures Merge(map[], p) == p && Merge(p, map[]) == p
  {
    assert Merge(map[], p).Keys == p.Keys && Merge(p, map[]).Keys == p.Keys;
  }

  // ---- The tree, as written: a bare dictionary stands for a node without children ----

  datatype Tuple = Bare(own: Props) | Pair(own: Props, children: seq<Child>)
  {
    function Kids(): seq<Child> {
      if Bare? then [] else children
    }
  }

  datatype Child = Child(name: string, tuple: Tuple)

  function Size(t: Tuple): nat {
    match t
    case Bare(_) => 1
    case Pair(_, children) => 1 + SizeAll(children)
  }

  function SizeAll(children: seq<Child>): nat {
    if children == [] then 0 else Size(children[0].tuple) + SizeAll(children[1..])
  }

  function Find(children: seq<Child>, name: string): Option<Tuple> {
    if children == [] then None
    else if children[0].name == name then Some(children[0].tuple)
    else Find(children[1..], name)
  }

  // The properties of the nodes met along the path, as far as the path matches.
  function Below(t: Tuple, path: seq<string>): seq<Props>
    decreases path
  {
    if path == [] then []
    else match Find(t.Kids(), path[0])
         case Some(child) => [child.own] + Below(child, path[1..])
         case None => []
  }

  function Chain(t: Tuple, path: seq<string>): seq<Props> {
    [t.own] + Below(t, path)
  }

  function MergeAll(chain: seq<Props>): Props {
    if chain == [] then map[] else Merge(chain[0], MergeAll(chain[1..]))
  }

  lemma {:induction false} MergeAllConcat(a: seq<Props>, b: seq<Props>)
    ensures MergeAll(a + b) == Merge(MergeAll(a), MergeAll(b))
  {
    if a == [] {
      MergeUnit(MergeAll(b));
      assert a + b == b;
    } else {
      assert (a + b)[1..] == a[1..] + b;
      MergeAllConcat(a[1..], b);
      MergeAssociative(a[0], MergeAll(a[1..]), MergeAll(b));
    }
  }

  lemma MergeAllSnoc(a: seq<Props>, p: Props)
    ensures MergeAll(a + [p]) == Merge(MergeAll(a), p)
  {
    MergeAllConcat(a, [p]);
    MergeUnit(p);
    assert MergeAll([p]) == Merge(p, MergeAll([]));
  }

  // ---- What the path met, told without searching ----

  // From the root a child with the name of each component in turn, as far as there is one.
  ghost predicate Walks(t: Tuple, path: seq<string>, met: seq<Tuple>) {
    && 0 < |met| <= |path| + 1 && met[0] == t
    && (forall i | 0 <= i < |met| - 1 :: Child(path[i], met[i + 1]) in met[i].Kids())
    && (|met| <= |path| ==> forall c | c in met[|met| - 1].Kids() :: c.name != path[|met| - 1])
  }

  // As in a dictionary, no two children have the same name.
  ghost predicate Distinct(t: Tuple) {
    match t
    case Bare(_) => true
    case Pair(_, children) =>
      && (forall i, j | 0 <= i < j < |children| :: children[i].name != children[j].name)
      && forall i | 0 <= i < |children| :: Distinct(children[i].tuple)
  }

  function Own(met: seq<Tuple>): (props: seq<Props>)
    ensures |props| == |met| && forall i | 0 <= i < |met| :: props[i] == met[i].own
  {
    seq(|met|, i requires 0 <= i < |met| => met[i].own)
  }

  lemma {:induction false} FindIs(children: seq<Child>, name: string)
    ensures var found := Find(children, name);
            if found.Some? then Child(name, found.value) in children
            else forall c | c in children :: c.name != name
  {
    if children != [] && children[0].name != name {
      FindIs(children[1..], name);
    }
  }

  lemma FindsTheOne(t: Tuple, c: Child)
    requires Distinct(t) && c in t.Kids()
    ensures Find(t.Kids(), c.name) == Some(c.tuple) && Distinct(c.tuple)
  {
    FindIs(t.Kids(), c.name);
    var i :| 0 <= i < |t.Kids()| && t.Kids()[i] == c;
    var found := Child(c.name, Find(t.Kids(), c.name).value);
    var j :| 0 <= j < |t.Kids()| && t.Kids()[j] == found;
  }

  lemma {:induction false} WalkExists(t: Tuple, path: seq<string>) returns (met: seq<Tuple>)
    ensures Walks(t, path, met)
    decreases path
  {
    met := [t];
    if path != [] {
      FindIs(t.Kids(), path[0]);
      match Find(t.Kids(), path[0]) {
        case Some(child) =>
          var rest := WalkExists(child, path[1..]);
          met := [t] + rest;
          forall i | 0 <= i < |met| - 1 ensures Child(path[i], met[i + 1]) in met[i].Kids() {
            if i > 0 {
              assert Child(path[1..][i - 1], rest[i]) in rest[i - 1].Kids();
            }
          }
        case None =>
      }
    }
  }

  lemma WalkRest(t: Tuple, path: seq<string>, met: seq<Tuple>)
    requires Walks(t, path, met) && |met| > 1
    ensures Walks(met[1], path[1..], met[1..])
  {
    forall i | 0 <= i < |met[1..]| - 1 ensures Child(path[1..][i], met[1..][i + 1]) in met[1..][i].Kids() {
      assert Child(path[i + 1], met[i + 1 + 1]) in met[i + 1].Kids();
    }
  }

  // The chain is what any such walk meets.
  lemma {:induction false} ChainIsWalk(t: Tuple, path: seq<string>, met: seq<Tuple>)
    requires Walks(t, path, met) && Distinct(t)
    ensures Chain(t, path) == Own(met)
    decreases path
  {
    if |met| == 1 {
      if path != [] {
        FindIs(t.Kids(), path[0]);
      }
    } else {
      assert Child(path[0], met[0 + 1]) in met[0].Kids();
      FindsTheOne(t, Child(path[0], met[1]));
      WalkRest(t, path, met);
      ChainIsWalk(met[1], path[1..], met[1..]);
      assert Own(met) == [t.own] + Own(met[1..]);
    }
  }

  // The result of a lookup: the merge along the walk, which exists and is the same however it
  // is found.
  ghost predicate MergedAlong(t: Tuple, path: seq<string>, result: Props) {
    && (exists met :: Walks(t, path, met))
    && forall met | Walks(t, path, met) :: result == MergeAll(Own(met))
  }

  lemma ChainIsMergedAlong(t: Tuple, path: seq<string>)
    requires Distinct(t)
    ensures MergedAlong(t, path, MergeAll(Chain(t, path)))
  {
    var m := WalkExists(t, path);
    forall met | Walks(t, path, met) ensures MergeAll(Chain(t, path)) == MergeAll(Own(met)) {
      ChainIsWalk(t, path, met);
    }
  }

  // ---- What wins ----

  lemma {:induction false} KeyIsSomewhere(chain: seq<Props>, key: string)
    ensures key in MergeAll(chain) <==> exists i | 0 <= i < |chain| :: key in chain[i]
  {
    if chain != [] {
      var rest := chain[1..];
      KeyIsSomewhere(rest, key);
      assert forall i | 0 <= i < |rest| :: rest[i] == chain[i + 1];
      assert forall i | 0 < i < |chain| :: chain[i] == rest[i - 1];
    }
  }

  // A property that is neither a list nor a dictionary is what the lowest path that has it says.
  lemma {:induction false} LowestWins(chain: seq<Props>, key: string, i: nat)
    requires !IsListKey(key) && !IsDictKey(key) && i < |chain| && key in chain[i]
    requires forall j | i < j < |chain| :: key !in chain[j]
    ensures key in MergeAll(chain) && MergeAll(chain)[key] == chain[i][key]
  {
    var rest := chain[1..];
    if i == 0 {
      KeyIsSomewhere(rest, key);
      forall j | 0 <= j < |rest| ensures key !in rest[j] {
        assert rest[j] == chain[j + 1];
      }
    } else {
      forall j | i - 1 < j < |rest| ensures key !in rest[j] {
        assert rest[j] == chain[j + 1];
      }
      LowestWins(rest, key, i - 1);
    }
  }

  ghost predicate HasEntry(p: Props, key: string, entry: string)
    requires IsDictKey(key)
  {
    key in p && entry in p[key].entries
  }

  lemma {:induction false} EntryIsSomewhere(chain: seq<Props>, key: string, entry: string)
    requires IsDictKey(key)
    ensures HasEntry(MergeAll(chain), key, entry) <==> exists i | 0 <= i < |chain| :: HasEntry(chain[i], key, entry)
  {
    if chain != [] {
      var rest := chain[1..];
      EntryIsSomewhere(rest, key, entry);
      DictIsNoList(key);
      assert forall i | 0 <= i < |rest| :: rest[i] == chain[i + 1];
      assert forall i | 0 < i < |chain| :: chain[i] == rest[i - 1];
    }
  }

  lemma DictIsNoList(key: string)
    ensures IsDictKey(key) ==> !IsListKey(key)
  {
    assert |"test_run_args"| == 13 && |"cc_flags"| != 13 && |"cc_flags_after"| != 13 && |"extra_objs"| != 13;
  }

  // And an entry of a dictionary is what the lowest path that has the entry says.
  lemma {:induction false} LowestEntryWins(chain: seq<Props>, key: string, entry: string, i: nat)
    requires IsDictKey(key) && i < |chain| && HasEntry(chain[i], key, entry)
    requires forall j | i < j < |chain| :: !HasEntry(chain[j], key, entry)
    ensures HasEntry(MergeAll(chain), key, entry)
    ensures MergeAll(chain)[key].entries[entry] == chain[i][key].entries[entry]
  {
    var rest := chain[1..];
    DictIsNoList(key);
    if i == 0 {
      EntryIsSomewhere(rest, key, entry);
      forall j | 0 <= j < |rest| ensures !HasEntry(rest[j], key, entry) {
        assert rest[j] == chain[j + 1];
      }
    } else {
      forall j | i - 1 < j < |rest| ensures !HasEntry(rest[j], key, entry) {
        assert rest[j] == chain[j + 1];
      }
      LowestEntryWins(rest, key, entry, i - 1);
    }
  }

  // All that a chain says about a list property.
  function Along(chain: seq<Props>, key: string): seq<string>
    requires IsListKey(key)
  {
    if chain == [] then []
    else (if key in chain[0] then chain[0][key].items else []) + Along(chain[1..], key)
  }

  lemma {:induction false} FlagsAccumulate(chain: seq<Props>, key: string)
    requires IsListKey(key)
    ensures key in MergeAll(chain) <==> exists i | 0 <= i < |chain| :: key in chain[i]
    ensures key in MergeAll(chain) ==> MergeAll(chain)[key] == List(Along(chain, key))
    ensures key !in MergeAll(chain) ==> Along(chain, key) == []
  {
    KeyIsSomewhere(chain, key);
    if chain != [] {
      FlagsAccumulate(chain[1..], key);
    }
  }

  lemma {:induction false} BelowGrows(t: Tuple, path: seq<string>, longer: seq<string>)
    requires path <= longer
    ensures Below(t, path) <= Below(t, longer)
    decreases path
  {
    if path != [] {
      match Find(t.Kids(), path[0]) {
        case Some(child) => BelowGrows(child, path[1..], longer[1..]);
        case None =>
      }
    }
  }

  lemma {:induction false} AlongConcat(a: seq<Props>, b: seq<Props>, key: string)
    requires IsListKey(key)
    ensures Along(a + b, key) == Along(a, key) + Along(b, key)
  {
    if a == [] {
      assert a + b == b;
    } else {
      assert (a + b)[1..] == a[1..] + b;
      AlongConcat(a[1..], b, key);
    }
  }

  // The flags of a directory come first among the flags of everything below it.
  lemma AncestorFlagsArePrefix(t: Tuple, path: seq<string>, longer: seq<string>, key: string)
    requires path <= longer && IsListKey(key) && key in MergeAll(Chain(t, path))
    ensures key in MergeAll(Chain(t, longer))
    ensures MergeAll(Chain(t, path))[key].items <= MergeAll(Chain(t, longer))[key].items
  {
    BelowGrows(t, path, longer);
    var a, all := Chain(t, path), Chain(t, longer);
    var b := all[|a|..];
    assert all == a + b;
    FlagsAccumulate(a, key);
    FlagsAccumulate(all, key);
    KeyIsSomewhere(a, key);
    KeyIsSomewhere(all, key);
    var i :| 0 <= i < |a| && key in a[i];
    assert key in all[i];
    AlongConcat(a, b, key);
  }

  function UpdateList(p: Props, tmp: Props, key: string): (r: Props)
    requires IsListKey(key)
    ensures r.Keys == tmp.Keys
  {
    if key in p && key in tmp then tmp[key := List(p[key].items + tmp[key].items)] else tmp
  }

  function UpdateDict(p: Props, tmp: Props, key: string): (r: Props)
    requires IsDictKey(key)
    ensures r.Keys == tmp.Keys
  {
    if key in p && key in tmp then tmp[key := Dict(p[key].entries + tmp[key].entries)] else tmp
  }

  lemma ListsUpdated(p: Props, q: Props, key: string)
    requires key in q
    ensures var lists := UpdateList(p, UpdateList(p, UpdateList(p, q, "cc_flags"), "cc_flags_after"), "extra_objs");
            key in lists
            && lists[key] == if IsListKey(key) && key in p then List(p[key].items + q[key].items) else q[key]
  {
    assert |"cc_flags"| != |"cc_flags_after"| && |"cc_flags"| != |"extra_objs"| && |"cc_flags_after"| != |"extra_objs"|;
  }

  lemma UpdatesMergeAt(p: Props, q: Props, lists: Props, tmp: Props, key: string)
    requires lists == UpdateList(p, UpdateList(p, UpdateList(p, q, "cc_flags"), "cc_flags_after"), "extra_objs")
    requires tmp == UpdateDict(p, lists, "test_run_args") && key in q
    ensures key in tmp && tmp[key] == if key in p then Merged(key, p[key], q[key]) else q[key]
  {
    ListsUpdated(p, q, key);
    if IsDictKey(key) {
      assert |key| == 13 && !IsListKey(key);
    }
  }

  // The updates of the four special keys, then of everything, merge the two.
  lemma UpdatesMerge(p: Props, q: Props, lists: Props, tmp: Props)
    requires lists == UpdateList(p, UpdateList(p, UpdateList(p, q, "cc_flags"), "cc_flags_after"), "extra_objs")
    requires tmp == UpdateDict(p, lists, "test_run_args")
    ensures p + tmp == Merge(p, q)
  {
    assert (p + tmp).Keys == Merge(p, q).Keys;
    forall key | key in p + tmp
      ensures (p + tmp)[key] == Merge(p, q)[key]
    {
      if key in q {
        UpdatesMergeAt(p, q, lists, tmp, key);
      }
    }
  }

  class PathProperties {
    var properties: Props

    constructor (properties: Props)
      ensures this.properties == properties
    {
      this.properties := properties;
    }

    // Appended lists and merged arguments are new values: nothing of `other` changes.
    method Update(other: PathProperties)
      modifies this
      ensures properties == Merge(old(properties), old(other.properties))
      ensures other != this ==> other.properties == old(other.properties)
    {
      var tmp := other.properties;
      tmp := UpdateList(properties, tmp, "cc_flags");
      tmp := UpdateList(properties, tmp, "cc_flags_after");
      tmp := UpdateList(properties, tmp, "extra_objs");
      ghost var lists := tmp;
      tmp := UpdateDict(properties, tmp, "test_run_args");
      UpdatesMerge(properties, other.properties, lists, tmp);
      properties := properties + tmp;
    }
  }

  // ---- Building the tree ----

  // Nodes live in a store; the table of children of a node holds a tuple until its conversion
  // puts the number of the new node in its place.
  datatype Slot = Raw(tuple: Tuple) | Made(ref: nat)

  datatype Entry = Entry(name: string, slot: Slot)

  datatype Node = Node(own: PathProperties, children: seq<Entry>)

  predicate AllKnown(t: Tuple, known: set<string>) {
    && t.own.Keys <= known
    && match t
       case Bare(_) => true
       case Pair(_, children) => forall i | 0 <= i < |children| :: AllKnown(children[i].tuple, known)
  }

  lemma {:induction false} KnownOnWalk(t: Tuple, known: set<string>, path: seq<string>, met: seq<Tuple>)
    requires AllKnown(t, known) && Walks(t, path, met)
    ensures met[|met| - 1].own.Keys <= known
    decreases t
  {
    if |met| > 1 {
      assert Child(path[0], met[0 + 1]) in met[0].Kids();
      var i :| 0 <= i < |t.children| && t.children[i] == Child(path[0], met[1]);
      assert AllKnown(t.children[i].tuple, known);
      WalkRest(t, path, met);
      KnownOnWalk(met[1], known, path[1..], met[1..]);
    }
  }

  lemma WalkFromParent(t: Tuple, c: Child, path: seq<string>, met: seq<Tuple>)
    requires c in t.Kids() && Walks(c.tuple, path, met)
    ensures Walks(t, [c.name] + path, [t] + met)
  {
    var names, all := [c.name] + path, [t] + met;
    forall i | 0 <= i < |all| - 1 ensures Child(names[i], all[i + 1]) in all[i].Kids() {
      if i > 0 {
        assert Child(path[i - 1], met[i - 1 + 1]) in met[i - 1].Kids();
      }
    }
  }

  // The names known to a conversion are those of every node that some walk ends at.
  lemma {:induction false} AllKnownIff(t: Tuple, known: set<string>)
    ensures AllKnown(t, known)
            <==> forall path, met: seq<Tuple> | Walks(t, path, met) :: met[|met| - 1].own.Keys <= known
  {
    if AllKnown(t, known) {
      forall path, met: seq<Tuple> | Walks(t, path, met) ensures met[|met| - 1].own.Keys <= known {
        KnownOnWalk(t, known, path, met);
      }
    } else if t.own.Keys <= known {
      var i :| 0 <= i < |t.children| && !AllKnown(t.children[i].tuple, known);
      var c := t.children[i];
      AllKnownIff(c.tuple, known);
      var path, met: seq<Tuple> :| Walks(c.tuple, path, met) && !(met[|met| - 1].own.Keys <= known);
      WalkFromParent(t, c, path, met);
      assert ([t] + met)[|[t] + met| - 1] == met[|met| - 1];
    } else {
      assert Walks(t, [], [t]);
    }
  }

  // The properties held by each node.
  ghost predicate Holds(store: seq<Node>, props: seq<Props>)
    reads set node | node in store :: node.own
  {
    |props| == |store| && forall r | 0 <= r < |store| :: store[r].own.properties == props[r]
  }

  // The node numbered `r` and all below it are trees for the tuple `t`.
  ghost predicate Represents(store: seq<Node>, props: seq<Props>, r: nat, t: Tuple)
    decreases t
  {
    && r < |store| == |props|
    && props[r] == t.own
    && |store[r].children| == |t.Kids()|
    && match t
       case Bare(_) => true
       case Pair(_, children) =>
         forall i | 0 <= i < |children| :: ChildOk(store, props, store[r].children[i], children[i])
  }

  ghost predicate ChildOk(store: seq<Node>, props: seq<Props>, entry: Entry, child: Child)
    decreases child
  {
    entry.name == child.name && entry.slot.Made? && Represents(store, props, entry.slot.ref, child.tuple)
  }

  // Where a node comes from: the tuple, and the entry of the node that holds it.
  datatype Origin = Origin(tuple: Tuple, parent: nat, index: nat)

  // `spec` remembers the origin of each node.
  ghost predicate EntryOk(spec: seq<Origin>, r: nat, i: nat, child: Child, entry: Entry) {
    && entry.name == child.name
    && match entry.slot
       case Raw(t) => t == child.tuple
       case Made(c) => 0 < c < |spec| && spec[c] == Origin(child.tuple, r, i)
  }

  // The first `done` children are converted and the others are not.
  ghost predicate NodeOk(spec: seq<Origin>, r: nat, t: Tuple, children: seq<Entry>, done: nat) {
    && |children| == |t.Kids()|
    && (forall i | 0 <= i < |children| :: EntryOk(spec, r, i, t.Kids()[i], children[i]))
    && (forall i | 0 <= i < |children| :: children[i].slot.Made? <==> i < done)
  }

  function Owns(spec: seq<Origin>): (props: seq<Props>)
    ensures |props| == |spec| && forall r | 0 <= r < |spec| :: props[r] == spec[r].tuple.own
  {
    seq(|spec|, r requires 0 <= r < |spec| => spec[r].tuple.own)
  }

  ghost predicate OwnOk(store: seq<Node>, spec: seq<Origin>, known: set<string>)
    reads set node | node in store :: node.own
  {
    && |spec| == |store|
    && forall r | 0 <= r < |store| :: store[r].own.properties == spec[r].tuple.own && spec[r].tuple.own.Keys <= known
  }

  // Nodes still in `todo` have no child converted, `busy` is in the middle, the others are done.
  ghost predicate StoreOk(store: seq<Node>, spec: seq<Origin>, todo: seq<nat>, busy: nat, done: nat) {
    && |spec| == |store|
    && (forall k | 0 <= k < |todo| :: todo[k] < |store| && todo[k] != busy)
    && (forall j, k | 0 <= j < k < |todo| :: todo[j] != todo[k])
    && (forall r | 0 <= r < |store| ::
          NodeOk(spec, r, spec[r].tuple, store[r].children,
                 if r in todo then 0 else if r == busy then done else |store[r].children|))
  }

  function TodoSize(spec: seq<Origin>, todo: seq<nat>): nat
    requires forall k | 0 <= k < |todo| :: todo[k] < |spec|
  {
    if todo == [] then 0 else Size(spec[todo[|todo| - 1]].tuple) + TodoSize(spec, todo[..|todo| - 1])
  }

  lemma {:induction false} TodoSizeGrows(spec: seq<Origin>, todo: seq<nat>, o: Origin)
    requires forall k | 0 <= k < |todo| :: todo[k] < |spec|
    ensures TodoSize(spec + [o], todo) == TodoSize(spec, todo)
    ensures TodoSize(spec + [o], todo + [|spec|]) == TodoSize(spec, todo) + Size(o.tuple)
  {
    if todo != [] {
      TodoSizeGrows(spec, todo[..|todo| - 1], o);
    }
    assert (todo + [|spec|])[..|todo|] == todo;
  }

  lemma NodeOkGrows(spec: seq<Origin>, r: nat, t: Tuple, children: seq<Entry>, done: nat, more: Origin)
    requires NodeOk(spec, r, t, children, done)
    ensures NodeOk(spec + [more], r, t, children, done)
  {
    forall i | 0 <= i < |children|
      ensures EntryOk(spec + [more], r, i, t.Kids()[i], children[i])
    {
      assert EntryOk(spec, r, i, t.Kids()[i], children[i]);
    }
  }

  function RawEntries(children: seq<Child>): (entries: seq<Entry>)
    ensures |entries| == |children|
    ensures forall i | 0 <= i < |children| :: entries[i] == Entry(children[i].name, Raw(children[i].tuple))
  {
    seq(|children|, i requires 0 <= i < |children| => Entry(children[i].name, Raw(children[i].tuple)))
  }

  // A node for the tuple, unless it names an unknown property.
  method TreeFromTuple(t: Tuple, known: set<string>) returns (node: Option<Node>)
    ensures node.Some? <==> t.own.Keys <= known
    ensures node.Some? ==> fresh(node.value.own) && node.value.own.properties == t.own
    ensures node.Some? ==> node.value.children == RawEntries(t.Kids())
  {
    if !(t.own.Keys <= known) {
      return None;
    }
    var own := new PathProperties(t.own);
    node := Some(Node(own, RawEntries(t.Kids())));
  }

  // Once the node of its child has the next number, an entry may point to it.
  lemma EntryConverted(spec: seq<Origin>, busy: nat, t: Tuple, entries: seq<Entry>, done: nat)
    requires NodeOk(spec, busy, t, entries, done) && done < |entries| && 0 < |spec|
    ensures entries[done].slot.Raw?
    ensures var child := t.Kids()[done].tuple;
            NodeOk(spec + [Origin(child, busy, done)], busy, t,
                   entries[done := Entry(entries[done].name, Made(|spec|))], done + 1)
  {
    var origin := Origin(t.Kids()[done].tuple, busy, done);
    assert EntryOk(spec, busy, done, t.Kids()[done], entries[done]);
    NodeOkGrows(spec, busy, t, entries, done, origin);
    var converted := entries[done := Entry(entries[done].name, Made(|spec|))];
    forall i | 0 <= i < |converted|
      ensures EntryOk(spec + [origin], busy, i, t.Kids()[i], converted[i])
    {
      assert EntryOk(spec + [origin], busy, i, t.Kids()[i], entries[i]);
    }
  }

  lemma RawNodeOk(spec: seq<Origin>, r: nat, t: Tuple)
    ensures NodeOk(spec, r, t, RawEntries(t.Kids()), 0)
  {
  }

  lemma ConvertedOne(
      store: seq<Node>, spec: seq<Origin>, todo: seq<nat>, busy: nat, done: nat, node: Node, t: Tuple)
    requires StoreOk(store, spec, todo, busy, done) && busy < |store|
    requires done < |store[busy].children| && store[busy].children[done].slot == Raw(t)
    requires node.children == RawEntries(t.Kids())
    ensures var entries := store[busy].children;
            var converted := Node(store[busy].own, entries[done := Entry(entries[done].name, Made(|store|))]);
            StoreOk(store[busy := converted] + [node], spec + [Origin(t, busy, done)], todo + [|store|], busy, done + 1)
  {
    var entries := store[busy].children;
    var converted := Node(store[busy].own, entries[done := Entry(entries[done].name, Made(|store|))]);
    var origin := Origin(t, busy, done);
    var store', spec', todo' := store[busy := converted] + [node], spec + [origin], todo + [|store|];
    assert NodeOk(spec, busy, spec[busy].tuple, entries, done);
    assert EntryOk(spec, busy, done, spec[busy].tuple.Kids()[done], entries[done]);
    EntryConverted(spec, busy, spec[busy].tuple, entries, done);
    RawNodeOk(spec', |store|, t);
    forall r | 0 <= r < |store'|
      ensures NodeOk(spec', r, spec'[r].tuple, store'[r].children,
                     if r in todo' then 0 else if r == busy then done + 1 else |store'[r].children|)
    {
      if r < |store| && r != busy {
        NodeOkGrows(spec, r, spec[r].tuple, store[r].children,
                    if r in todo then 0 else |store[r].children|, origin);
        assert r in todo' <==> r in todo;
      }
    }
  }

  // The state of the loop over the children of `busy` after `i` turns, started with `before`:
  // every turn makes one node, and moves the size of its tuple from the children left to the
  // worklist, so that `work` and `nodes` stay the same.
  ghost predicate Converting(
      store: seq<Node>, todo: seq<nat>, spec: seq<Origin>, before: seq<Origin>, busy: nat, i: nat,
      known: set<string>, nodes: int, work: nat)
    reads set node | node in store :: node.own
  {
    && busy < |before| && before <= spec
    && StoreOk(store, spec, todo, busy, i) && OwnOk(store, spec, known)
    && |store| - |todo| == nodes
    && Added(before, spec, before[busy].tuple.Kids(), i)
    && |store[busy].children| == |before[busy].tuple.Kids()|
    && TodoSize(spec, todo) + SizeAll(before[busy].tuple.Kids()[i..]) == work
  }

  ghost predicate Added(before: seq<Origin>, spec: seq<Origin>, kids: seq<Child>, i: nat) {
    i <= |kids| && |spec| == |before| + i && forall j | 0 <= j < i :: spec[|before| + j].tuple == kids[j].tuple
  }

  lemma AddedOneMore(before: seq<Origin>, spec: seq<Origin>, kids: seq<Child>, i: nat, o: Origin)
    requires Added(before, spec, kids, i) && i < |kids| && o.tuple == kids[i].tuple
    ensures Added(before, spec + [o], kids, i + 1)
  {
  }

  lemma StartConverting(store: seq<Node>, todo: seq<nat>, spec: seq<Origin>, busy: nat, known: set<string>)
    requires busy < |store| && StoreOk(store, spec, todo, busy, 0) && OwnOk(store, spec, known)
    ensures Converting(store, todo, spec, spec, busy, 0, known, |store| - |todo|,
                       TodoSize(spec, todo) + SizeAll(spec[busy].tuple.Kids()))
  {
    assert NodeOk(spec, busy, spec[busy].tuple, store[busy].children, 0);
    assert spec[busy].tuple.Kids()[0..] == spec[busy].tuple.Kids();
  }

  // Convert the children of the node just popped.
  method ConvertChildren(store: seq<Node>, todo: seq<nat>, busy: nat, known: set<string>, ghost spec: seq<Origin>)
    returns (ok: bool, store': seq<Node>, todo': seq<nat>, ghost spec': seq<Origin>)
    requires busy < |store| && StoreOk(store, spec, todo, busy, 0)
    requires OwnOk(store, spec, known)
    ensures ok ==> Converting(store', todo', spec', spec, busy, |spec[busy].tuple.Kids()|, known,
                              |store| - |todo|, TodoSize(spec, todo) + SizeAll(spec[busy].tuple.Kids()))
    ensures !ok ==> !AllKnown(spec[busy].tuple, known)
  {
    ok, store', todo', spec' := true, store, todo, spec;
    StartConverting(store, todo, spec, busy, known);
    ghost var nodes, work := |store| - |todo|, TodoSize(spec, todo) + SizeAll(spec[busy].tuple.Kids());
    var i := 0;
    while i < |store'[busy].children|
      invariant Converting(store', todo', spec', spec, busy, i, known, nodes, work)
      decreases |spec[busy].tuple.Kids()| - i
    {
      ok, store', todo', spec' := ConvertOne(store', todo', busy, i, known, spec', spec, nodes, work);
      if !ok {
        return;
      }
      i := i + 1;
    }
  }

  lemma SizeAllSplit(children: seq<Child>, i: nat)
    requires i < |children|
    ensures SizeAll(children[i..]) == Size(children[i].tuple) + SizeAll(children[i + 1..])
  {
    assert children[i..][1..] == children[i + 1..];
  }

  lemma OwnConverted(
      store: seq<Node>, spec: seq<Origin>, known: set<string>, busy: nat, entries: seq<Entry>, node: Node,
      o: Origin)
    requires OwnOk(store, spec, known) && busy < |store|
    requires node.own.properties == o.tuple.own && o.tuple.own.Keys <= known
    ensures OwnOk(store[busy := Node(store[busy].own, entries)] + [node], spec + [o], known)
  {
  }

  // One turn of the loop over the children.
  method ConvertOne(
      store: seq<Node>, todo: seq<nat>, busy: nat, i: nat, known: set<string>, ghost spec: seq<Origin>,
      ghost before: seq<Origin>, ghost nodes: int, ghost work: nat)
    returns (ok: bool, store': seq<Node>, todo': seq<nat>, ghost spec': seq<Origin>)
    requires Converting(store, todo, spec, before, busy, i, known, nodes, work) && i < |store[busy].children|
    ensures ok ==> Converting(store', todo', spec', before, busy, i + 1, known, nodes, work)
    ensures !ok ==> !AllKnown(before[busy].tuple, known)
  {
    var entry := store[busy].children[i];
    ghost var kids := before[busy].tuple.Kids();
    assert NodeOk(spec, busy, spec[busy].tuple, store[busy].children, i);
    assert EntryOk(spec, busy, i, kids[i], entry) && entry.slot.Raw?;
    var child := entry.slot.tuple;
    var node := TreeFromTuple(child, known);
    if node.None? {
      return false, store, todo, spec;
    }
    ghost var origin := Origin(child, busy, i);
    ConvertedOne(store, spec, todo, busy, i, node.value, child);
    TodoSizeGrows(spec, todo, origin);
    SizeAllSplit(kids, i);
    AddedOneMore(before, spec, kids, i, origin);
    var converted := store[busy].children[i := Entry(entry.name, Made(|store|))];
    OwnConverted(store, spec, known, busy, converted, node.value, origin);
    ok := true;
    todo' := todo + [|store|];
    store' := store[busy := Node(store[busy].own, converted)] + [node.value];
    spec' := spec + [origin];
  }

  lemma {:induction false} AllConverted(store: seq<Node>, spec: seq<Origin>, known: set<string>, r: nat)
    requires StoreOk(store, spec, [], |store|, 0) && OwnOk(store, spec, known) && r < |store|
    ensures Represents(store, Owns(spec), r, spec[r].tuple) && AllKnown(spec[r].tuple, known)
    decreases spec[r].tuple
  {
    assert NodeOk(spec, r, spec[r].tuple, store[r].children, |store[r].children|);
    match spec[r].tuple {
      case Bare(_) =>
      case Pair(_, children) =>
        forall i | 0 <= i < |children|
          ensures AllKnown(children[i].tuple, known)
          ensures ChildOk(store, Owns(spec), store[r].children[i], children[i])
        {
          assert EntryOk(spec, r, i, children[i], store[r].children[i]);
          AllConverted(store, spec, known, store[r].children[i].slot.ref);
        }
    }
  }

  // No node is the child of two entries, and the root is nobody's child.
  ghost predicate Unshared(store: seq<Node>) {
    && (forall r, i | 0 <= r < |store| && 0 <= i < |store[r].children| :: store[r].children[i].slot != Made(0))
    && forall r, i, q, j | 0 <= r < |store| && 0 <= i < |store[r].children|
                           && 0 <= q < |store| && 0 <= j < |store[q].children|
                           && store[r].children[i].slot.Made?
                           && store[r].children[i].slot == store[q].children[j].slot :: r == q && i == j
  }

  lemma NothingShared(store: seq<Node>, spec: seq<Origin>)
    requires StoreOk(store, spec, [], |store|, 0)
    ensures Unshared(store)
  {
    forall r: nat, i: nat | r < |store| && i < |store[r].children| && store[r].children[i].slot.Made?
      ensures var c := store[r].children[i].slot.ref;
              0 < c < |spec| && spec[c].parent == r && spec[c].index == i
    {
      assert NodeOk(spec, r, spec[r].tuple, store[r].children, |store[r].children|);
      assert EntryOk(spec, r, i, spec[r].tuple.Kids()[i], store[r].children[i]);
    }
  }

  ghost predicate TuplesKnown(spec: seq<Origin>, known: set<string>) {
    forall r | 0 <= r < |spec| :: AllKnown(spec[r].tuple, known)
  }

  lemma ChildrenKnown(before: seq<Origin>, spec: seq<Origin>, cur: nat, known: set<string>)
    requires cur < |before| && before <= spec
    requires Added(before, spec, before[cur].tuple.Kids(), |before[cur].tuple.Kids()|)
    ensures TuplesKnown(before, known) ==> TuplesKnown(spec, known)
  {
    if TuplesKnown(before, known) {
      forall r | 0 <= r < |spec| ensures AllKnown(spec[r].tuple, known) {
        assert AllKnown(before[cur].tuple, known);
        if r >= |before| {
          assert spec[|before| + (r - |before|)].tuple == before[cur].tuple.Kids()[r - |before|].tuple;
        } else {
          assert AllKnown(before[r].tuple, known);
        }
      }
    }
  }

  lemma PoppedIsBusy(store: seq<Node>, spec: seq<Origin>, todo: seq<nat>)
    requires todo != [] && StoreOk(store, spec, todo, |store|, 0)
    ensures var n := |todo| - 1; todo[n] < |store| && StoreOk(store, spec, todo[..n], todo[n], 0)
  {
    var n := |todo| - 1;
    var rest, cur := todo[..n], todo[n];
    assert todo == rest + [cur];
    forall r | 0 <= r < |store|
      ensures NodeOk(spec, r, spec[r].tuple, store[r].children,
                     if r in rest then 0 else if r == cur then 0 else |store[r].children|)
    {
      assert r in todo <==> r in rest || r == cur;
    }
  }

  lemma BusyIsDone(store: seq<Node>, spec: seq<Origin>, todo: seq<nat>, busy: nat)
    requires busy < |store| && StoreOk(store, spec, todo, busy, |store[busy].children|)
    ensures StoreOk(store, spec, todo, |store|, 0)
  {
    forall r | 0 <= r < |store|
      ensures NodeOk(spec, r, spec[r].tuple, store[r].children, if r in todo then 0 else |store[r].children|)
    {
    }
  }

  // What holds between two rounds of the worklist loop.
  ghost predicate Making(
      store: seq<Node>, todo: seq<nat>, spec: seq<Origin>, known: set<string>, t: Tuple)
    reads set node | node in store :: node.own
  {
    && 0 < |spec| && spec[0].tuple == t
    && StoreOk(store, spec, todo, |store|, 0) && OwnOk(store, spec, known)
    && |store| - |todo| + TodoSize(spec, todo) == Size(t)
    && (AllKnown(t, known) ==> TuplesKnown(spec, known))
  }

  // One round: the last node of the worklist is popped and its children converted.
  method MakeRound(store: seq<Node>, todo: seq<nat>, known: set<string>, ghost spec: seq<Origin>, ghost t: Tuple)
    returns (ok: bool, store': seq<Node>, todo': seq<nat>, ghost spec': seq<Origin>)
    requires Making(store, todo, spec, known, t) && todo != []
    ensures ok ==> Making(store', todo', spec', known, t) && TodoSize(spec', todo') < TodoSize(spec, todo)
    ensures !ok ==> !AllKnown(t, known)
  {
    var cur := todo[|todo| - 1];
    var rest := todo[..|todo| - 1];
    PoppedIsBusy(store, spec, todo);
    ok, store', todo', spec' := ConvertChildren(store, rest, cur, known, spec);
    if ok {
      assert Size(spec[cur].tuple) == 1 + SizeAll(spec[cur].tuple.Kids());
      ChildrenKnown(spec, spec', cur, known);
      BusyIsDone(store', spec', todo', cur);
    }
  }

  // Every tuple becomes exactly one node, whatever the shape; the only failure is an unknown key.
  method MakeFromTuples(t: Tuple, known: set<string>) returns (r: Option<seq<Node>>, ghost props: seq<Props>)
    ensures r.Some? <==> AllKnown(t, known)
    ensures r.Some? ==> Holds(r.value, props) && Represents(r.value, props, 0, t)
    ensures r.Some? ==> |r.value| == Size(t) && Unshared(r.value)
  {
    props := [];
    var top := TreeFromTuple(t, known);
    if top.None? {
      return None, props;
    }
    var store, todo := [top.value], [0];
    ghost var spec := [Origin(t, 0, 0)];
    assert TodoSize(spec, todo) == Size(t) + TodoSize(spec, []);
    while todo != []
      invariant Making(store, todo, spec, known, t)
      decreases TodoSize(spec, todo)
    {
      var ok;
      ok, store, todo, spec := MakeRound(store, todo, known, spec, t);
      if !ok {
        return None, props;
      }
    }
    AllConverted(store, spec, known, 0);
    NothingShared(store, spec);
    r, props := Some(store), Owns(spec);
  }

  // ---- Lookup ----

  // Looking up a name in the table of children of a converted node.
  function Lookup(entries: seq<Entry>, name: string): Option<nat> {
    if entries == [] then None
    else if entries[0].name == name then (match entries[0].slot case Raw(_) => None case Made(r) => Some(r))
    else Lookup(entries[1..], name)
  }

  lemma {:induction false} LookupFinds(
      store: seq<Node>, props: seq<Props>, entries: seq<Entry>, children: seq<Child>, name: string)
    requires |entries| == |children|
    requires forall i | 0 <= i < |children| :: ChildOk(store, props, entries[i], children[i])
    ensures Lookup(entries, name).Some? <==> Find(children, name).Some?
    ensures Lookup(entries, name).Some? ==>
              Represents(store, props, Lookup(entries, name).value, Find(children, name).value)
  {
    if entries != [] {
      assert ChildOk(store, props, entries[0], children[0]);
      LookupFinds(store, props, entries[1..], children[1..], name);
    }
  }

  lemma LookupNode(store: seq<Node>, props: seq<Props>, r: nat, t: Tuple, name: string)
    requires Represents(store, props, r, t)
    ensures var next := Lookup(store[r].children, name);
            && (next.Some? <==> Find(t.Kids(), name).Some?)
            && (next.Some? ==> Represents(store, props, next.value, Find(t.Kids(), name).value))
  {
    LookupFinds(store, props, store[r].children, t.Kids(), name);
  }

  lemma ConcatThree(a: seq<Props>, b: seq<Props>, c: seq<Props>)
    ensures a + (b + c) == a + b + c
  {
  }

  lemma BelowFirst(at: Tuple, path: seq<string>)
    requires path != []
    ensures Below(at, path) == match Find(at.Kids(), path[0])
                               case Some(child) => [child.own] + Below(child, path[1..])
                               case None => []
  {
  }

  lemma BelowStep(met: seq<Props>, at: Tuple, path: seq<string>, i: nat)
    requires i < |path|
    ensures met + Below(at, path[i..]) ==
            match Find(at.Kids(), path[i])
            case Some(child) => met + [child.own] + Below(child, path[i + 1..])
            case None => met
  {
    BelowFirst(at, path[i..]);
    assert path[i..][1..] == path[i + 1..];
    match Find(at.Kids(), path[i]) {
      case Some(child) => ConcatThree(met, [child.own], Below(child, path[i + 1..]));
      case None =>
    }
  }

  lemma StartOfChain(own: Props)
    ensures MergeAll([own]) == own
  {
    MergeUnit(own);
    assert MergeAll([own]) == Merge(own, MergeAll([]));
  }

  // The merge along the longest matching prefix; only the fresh result object is written.
  method Get(store: seq<Node>, ghost props: seq<Props>, ghost t: Tuple, path: seq<string>)
    returns (acc: PathProperties)
    requires Holds(store, props) && Represents(store, props, 0, t)
    ensures fresh(acc) && acc.properties == MergeAll(Chain(t, path))
    ensures Distinct(t) ==> MergedAlong(t, path, acc.properties)
  {
    if Distinct(t) {
      ChainIsMergedAlong(t, path);
    }
    acc := new PathProperties(store[0].own.properties);
    StartOfChain(t.own);
    ghost var met := [t.own];
    ghost var at := t;
    var cur := 0;
    var i := 0;
    while i < |path|
      invariant i <= |path| && fresh(acc)
      invariant Represents(store, props, cur, at)
      invariant acc.properties == MergeAll(met)
      invariant Chain(t, path) == met + Below(at, path[i..])
    {
      BelowStep(met, at, path, i);
      LookupNode(store, props, cur, at, path[i]);
      var next := Lookup(store[cur].children, path[i]);
      if next.None? {
        return;
      }
      at := Find(at.Kids(), path[i]).value;
      cur := next.value;
      MergeAllSnoc(met, at.own);
      acc.Update(store[cur].own);
      met := met + [at.own];
      i := i + 1;
    }
    assert met + [] == met;
  }
}
