/** The fluent JSON document builder (transport-catalogue/json_builder.cpp).
    The builder owns the root node; `current_` and every entry of
    `nodes_stack_` point into it. Here a pointer into the document is the path
    that leads from the root to the node, so "the node current_ points to" is
    `NodeAt(root, current)`. The context classes of the source only restrict
    which call may follow which at compile time and forward to the builder;
    they are not modelled. */
module JsonBuilder {
  import opened Wrappers
  import opened Json
  import opened Ordered

  const KEY_OUTSIDE_DICT := "Key error: attempt to call Key outside the Dict"
  const KEY_TWICE := "Key error: two Key calls in a row"
  const VALUE_COMPLETED := "Value error: document completed"
  const VALUE_NO_KEY := "Value error: attempt to insert in Dict wihtout Key"
  const START_DICT_COMPLETED := "StartDict error: document completed"
  const START_DICT_NO_KEY := "StartDict error: attempt to insert in Dict wihtout Key"
  const START_ARRAY_COMPLETED := "StartArray error: document completed"
  const START_ARRAY_NO_KEY := "StartArray error: attempt to insert in Dict wihtout Key"
  const END_DICT_PENDING := "EndDict error: Dict element has no value"
  const END_DICT_NOT_DICT := "EndDict error: attempt to close not a Dict object"
  const END_ARRAY_NOT_ARRAY := "EndArray error: attempt to close not an Array object"
  const BUILD_INCOMPLETE := "Build error: Document not completed"

  // ---------------------------------------------------------------------------
  // Paths into a document

  /** One step from a container to one of its children. */
  datatype Step = Index(i: nat) | Member(key: string)

  /** The child one step leads to, if there is one. */
  function Child(n: Node, s: Step): (r: Option<Node>)
    ensures r.Some? <==> (n.Array? && s.Index? && s.i < |n.items|) || (n.Dict? && s.Member? && s.key in n.entries)
  {
    if n.Array? && s.Index? && s.i < |n.items| then Some(n.items[s.i])
    else if n.Dict? && s.Member? && s.key in n.entries then Some(n.entries[s.key])
    else None
  }

  /** The container with the child one step leads to replaced by `v`; a step
      that leads nowhere leaves it as it was. */
  function Put(n: Node, s: Step, v: Node): (r: Node)
    ensures Child(n, s).Some? ==> Child(r, s) == Some(v)
    ensures Child(n, s).None? ==> r == n
    ensures r.Array? == n.Array? && r.Dict? == n.Dict?
  {
    if n.Array? && s.Index? && s.i < |n.items| then Array(n.items[s.i := v])
    else if n.Dict? && s.Member? && s.key in n.entries then Dict(n.entries[s.key := v])
    else n
  }

  /** A pointer into a document, as the way down to it from the root: the
      root itself, or one step below the node another path leads to. */
  datatype Path = Root | Down(up: Path, step: Step)

  /** How many steps below the root a path leads. */
  function Depth(p: Path): nat {
    if p.Root? then 0 else Depth(p.up) + 1
  }

  /** The node a path leads to: what a pointer into the document points at. */
  function NodeAt(n: Node, p: Path): Option<Node> {
    if p.Root? then Some(n)
    else
      var above := NodeAt(n, p.up);
      if above.None? then None else Child(above.value, p.step)
  }

  /** The document with the node at `p` replaced by `v`: an assignment through
      the pointer `p`. */
  function Replace(n: Node, p: Path, v: Node): Node {
    if p.Root? then v
    else
      var above := NodeAt(n, p.up);
      if above.None? then n else Replace(n, p.up, Put(above.value, p.step, v))
  }

  /** After an assignment through `p`, `p` leads to the assigned node. */
  lemma {:induction false} ReplaceAt(n: Node, p: Path, v: Node)
    requires NodeAt(n, p).Some?
    ensures NodeAt(Replace(n, p, v), p) == Some(v)
  {
    if p.Down? {
      ReplaceAt(n, p.up, Put(NodeAt(n, p.up).value, p.step, v));
    }
  }

  /** Only a container has nodes below it, and an assignment below the root
      leaves the root's kind as it was. */
  lemma {:induction false} ReplaceKeepsRootKind(n: Node, p: Path, v: Node)
    requires p.Down? && NodeAt(n, p).Some?
    ensures n.Array? || n.Dict?
    ensures Replace(n, p, v).Array? == n.Array? && Replace(n, p, v).Dict? == n.Dict?
  {
    if p.up.Down? {
      ReplaceKeepsRootKind(n, p.up, Put(NodeAt(n, p.up).value, p.step, v));
    }
  }

  /** Assigning a node the value it already has changes nothing. */
  lemma {:induction false} ReplaceSame(n: Node, p: Path, x: Node)
    requires NodeAt(n, p) == Some(x)
    ensures Replace(n, p, x) == n
  {
    if p.Down? {
      var m := NodeAt(n, p.up).value;
      if m.Array? {
        assert m.items[p.step.i := x] == m.items;
      } else {
        assert m.entries[p.step.key := x] == m.entries;
      }
      assert Put(m, p.step, x) == m;
      ReplaceSame(n, p.up, m);
    }
  }

  /** The second of two assignments through the same pointer wins. */
  lemma {:induction false} ReplaceTwice(n: Node, p: Path, a: Node, b: Node)
    requires NodeAt(n, p).Some?
    ensures Replace(Replace(n, p, a), p, b) == Replace(n, p, b)
  {
    if p.Down? {
      var m := NodeAt(n, p.up).value;
      var s := p.step;
      ReplaceAt(n, p.up, Put(m, s, a));
      if m.Array? {
        assert m.items[s.i := a][s.i := b] == m.items[s.i := b];
      } else {
        assert m.entries[s.key := a][s.key := b] == m.entries[s.key := b];
      }
      assert Put(Put(m, s, a), s, b) == Put(m, s, b);
      ReplaceTwice(n, p.up, Put(m, s, a), Put(m, s, b));
    }
  }

  lemma {:induction false} PutNewLast(items: seq<Node>, empty: Node, x: Node)
    ensures Put(Array(items + [empty]), Index(|items|), x) == Array(items + [x])
  {
    assert (items + [empty])[|items| := x] == items + [x];
  }

  lemma {:induction false} PutNewMember(entries: map<string, Node>, key: string, empty: Node, x: Node)
    requires key !in entries
    ensures Put(Dict(Emplace(entries, key, empty)), Member(key), x) == Dict(Emplace(entries, key, x))
  {
    assert entries[key := empty][key := x] == entries[key := x];
  }

  // ---------------------------------------------------------------------------
  // The builder's state and what each call does to it

  /** `root_`, `nodes_stack_`, `current_`, `dict_key_` and `key_flag_`. */
  datatype State = State(root: Node, stack: seq<Path>, current: Path, dictKey: string, keyFlag: bool)

  /** A default-constructed builder: a null root, nothing open. */
  const START: State := State(Null, [], Root, "", false)

  /** The open containers when `p` leads to the current node: every prefix
      of `p`, the root first and the current node last. */
  function Prefixes(p: Path): (r: seq<Path>)
    ensures |r| == Depth(p) + 1 && r[Depth(p)] == p
  {
    if p.Root? then [Root] else Prefixes(p.up) + [p]
  }

  /** The builder's invariant. The open containers are the current node and
      its ancestors, outermost first; with nothing open the current node is
      the root; the current node is in the document; a null root has nothing
      open; a key is pending only inside a Dict. */
  predicate WellFormed(st: State) {
    && (st.root.Null? ==> st.stack == [])
    && (if st.stack == [] then st.current == Root else st.stack == Prefixes(st.current))
    && NodeAt(st.root, st.current).Some?
    && (st.keyFlag ==> TopIsDict(st))
  }

  /** The document is complete: a root value and nothing left open. */
  predicate Completed(st: State) {
    !st.root.Null? && st.stack == []
  }

  /** The innermost open container is a Dict (respectively an Array). */
  predicate TopIsDict(st: State) {
    st.stack != [] && NodeAt(st.root, st.stack[|st.stack| - 1]).Some? && NodeAt(st.root, st.stack[|st.stack| - 1]).value.Dict?
  }

  predicate TopIsArray(st: State) {
    st.stack != [] && NodeAt(st.root, st.stack[|st.stack| - 1]).Some? && NodeAt(st.root, st.stack[|st.stack| - 1]).value.Array?
  }

  /** The innermost open container is the current node. */
  lemma {:induction false} TopIsCurrent(st: State)
    requires WellFormed(st) && st.stack != []
    ensures st.stack[|st.stack| - 1] == st.current
  {
  }

  /** `std::map::emplace`: a key already present keeps its value. */
  function Emplace(entries: map<string, Node>, key: string, v: Node): (r: map<string, Node>)
    ensures key in r && r[key] == (if key in entries then entries[key] else v)
    ensures r.Keys == entries.Keys + {key}
    ensures forall k :: k in entries ==> r[k] == entries[k]
  {
    if key in entries then entries else entries[key := v]
  }

  /** `Key`: remembers the key of the next Dict entry. */
  function AfterKey(st: State, key: string): (r: Result<State>)
    ensures r.Failure? <==> !TopIsDict(st) || st.keyFlag
    ensures r.Failure? ==> r.error == LogicError(if !TopIsDict(st) then KEY_OUTSIDE_DICT else KEY_TWICE)
    ensures r.Success? ==> r.value.keyFlag && r.value.dictKey == key
    ensures r.Success? ==> r.value.root == st.root && r.value.stack == st.stack && r.value.current == st.current
    ensures r.Success? && WellFormed(st) ==> WellFormed(r.value)
  {
    if !TopIsDict(st) then Failure(LogicError(KEY_OUTSIDE_DICT))
    else if st.keyFlag then Failure(LogicError(KEY_TWICE))
    else Success(st.(dictKey := key, keyFlag := true))
  }

  /** `Value`: the first value becomes the root; later ones go into the
      current container, into a Dict under the pending key. A current node
      that is not a container (reachable only through a repeated key, see
      AfterStart) takes nothing and the call still succeeds. */
  function AfterValue(st: State, v: Node): (r: Result<State>)
  {
    if Completed(st) then Failure(LogicError(VALUE_COMPLETED))
    else if st.root.Null? then Success(st.(root := v))
    else
      var target := NodeAt(st.root, st.current);
      if target.Some? && target.value.Dict? then
        if !st.keyFlag then Failure(LogicError(VALUE_NO_KEY))
        else Success(st.(root := Replace(st.root, st.current, Dict(Emplace(target.value.entries, st.dictKey, v))), keyFlag := false))
      else if target.Some? && target.value.Array? then
        Success(st.(root := Replace(st.root, st.current, Array(target.value.items + [v]))))
      else Success(st)
  }

  /** `StartDict` and `StartArray`, which differ only in the empty container
      they open and in their messages: the container becomes the root, or is
      inserted into the current container like a value; either way it is
      pushed and becomes the current node. Under a key the Dict already holds,
      `emplace` inserts nothing and the node pushed is the one already there. */
  function AfterStart(st: State, empty: Node, completed: string, noKey: string): (r: Result<State>)
  {
    if Completed(st) then Failure(LogicError(completed))
    else if st.root.Null? then Success(st.(root := empty, stack := [st.current]))
    else
      var target := NodeAt(st.root, st.current);
      if target.Some? && target.value.Dict? then
        if !st.keyFlag then Failure(LogicError(noKey))
        else
          var child := Down(st.current, Member(st.dictKey));
          Success(st.(root := Replace(st.root, st.current, Dict(Emplace(target.value.entries, st.dictKey, empty))),
                      current := child, stack := st.stack + [child], keyFlag := false))
      else if target.Some? && target.value.Array? then
        var child := Down(st.current, Index(|target.value.items|));
        Success(st.(root := Replace(st.root, st.current, Array(target.value.items + [empty])),
                    current := child, stack := st.stack + [child]))
      else Success(st)
  }

  /** Pops the innermost open container; the one outside it, or the root,
      becomes current. */
  function Pop(st: State): (r: State)
    requires st.stack != []
    ensures |r.stack| == |st.stack| - 1
  {
    var stack := st.stack[..|st.stack| - 1];
    st.(stack := stack, current := if stack == [] then Root else stack[|stack| - 1])
  }

  /** `EndDict`: closes the innermost container, which must be a Dict with
      no key pending. */
  function AfterEndDict(st: State): (r: Result<State>)
  {
    if st.keyFlag then Failure(LogicError(END_DICT_PENDING))
    else if !TopIsDict(st) then Failure(LogicError(END_DICT_NOT_DICT))
    else Success(Pop(st))
  }

  /** `EndArray`: closes the innermost container, which must be an Array. */
  function AfterEndArray(st: State): (r: Result<State>)
  {
    if !TopIsArray(st) then Failure(LogicError(END_ARRAY_NOT_ARRAY))
    else Success(Pop(st))
  }

  /** `Build`: the root of a complete document. */
  function Built(st: State): (r: Result<Node>)
    ensures r.Success? <==> Completed(st)
    ensures r.Success? ==> r.value == st.root
    ensures r.Failure? ==> r.error == LogicError(BUILD_INCOMPLETE)
  {
    if st.root.Null? || st.stack != [] then Failure(LogicError(BUILD_INCOMPLETE)) else Success(st.root)
  }

  // ---------------------------------------------------------------------------
  // What the calls promise

  /** `Value` fails on a complete document, and inside a Dict without a
      pending key; otherwise it keeps the builder's invariant, nothing is
      opened or closed, and the value lands where it belongs: as the root of
      an empty builder, under the pending key of a Dict unless the key is
      already there (then the first value stays), at the end of an Array. */
  lemma {:induction false} ValueEffect(st: State, v: Node)
    requires WellFormed(st)
    ensures AfterValue(st, v).Failure? <==>
      Completed(st) || (!st.root.Null? && NodeAt(st.root, st.current).value.Dict? && !st.keyFlag)
    ensures AfterValue(st, v).Failure? ==>
      AfterValue(st, v).error == LogicError(if Completed(st) then VALUE_COMPLETED else VALUE_NO_KEY)
    ensures AfterValue(st, v).Success? ==>
      var r := AfterValue(st, v).value;
      && WellFormed(r) && r.stack == st.stack && r.current == st.current && r.dictKey == st.dictKey
      && (st.root.Null? ==> r.root == v && r.keyFlag == st.keyFlag)
      && (!st.root.Null? ==>
          var target := NodeAt(st.root, st.current).value;
          if target.Dict? then NodeAt(r.root, r.current) == Some(Dict(Emplace(target.entries, st.dictKey, v))) && !r.keyFlag
          else if target.Array? then NodeAt(r.root, r.current) == Some(Array(target.items + [v])) && r.keyFlag == st.keyFlag
          else r == st)
  {
    if !Completed(st) && !st.root.Null? {
      var target := NodeAt(st.root, st.current).value;
      TopIsCurrent(st);
      if target.Dict? && st.keyFlag {
        ReplaceAt(st.root, st.current, Dict(Emplace(target.entries, st.dictKey, v)));
        if st.current.Down? {
          ReplaceKeepsRootKind(st.root, st.current, Dict(Emplace(target.entries, st.dictKey, v)));
        }
      } else if target.Array? {
        ReplaceAt(st.root, st.current, Array(target.items + [v]));
        if st.current.Down? {
          ReplaceKeepsRootKind(st.root, st.current, Array(target.items + [v]));
        }
      }
    }
  }

  /** `StartDict`/`StartArray` fail on a complete document and inside a Dict
      without a pending key; otherwise they keep the builder's invariant and
      push exactly one open container, keeping the ones already open. When
      the current node is a container and the key, if any, is new, the
      pushed node is the given empty container: the root of an empty
      builder, the entry under the pending key, or the Array's new last
      element. */
  lemma {:induction false} StartEffect(st: State, empty: Node, completed: string, noKey: string)
    requires WellFormed(st)
    requires empty == Dict(map[]) || empty == Array([])
    ensures AfterStart(st, empty, completed, noKey).Failure? <==>
      Completed(st) || (!st.root.Null? && NodeAt(st.root, st.current).value.Dict? && !st.keyFlag)
    ensures AfterStart(st, empty, completed, noKey).Failure? ==>
      AfterStart(st, empty, completed, noKey).error == LogicError(if Completed(st) then completed else noKey)
    ensures AfterStart(st, empty, completed, noKey).Success? ==>
      var r := AfterStart(st, empty, completed, noKey).value;
      var target := NodeAt(st.root, st.current).value;
      && WellFormed(r) && !r.keyFlag
      && (st.root.Null? || target.Dict? || target.Array? ==>
            |r.stack| == |st.stack| + 1 && r.stack[..|st.stack|] == st.stack)
      && (st.root.Null? ==> r.root == empty)
      && (!st.root.Null? && target.Array? ==>
            NodeAt(r.root, st.current) == Some(Array(target.items + [empty])) && NodeAt(r.root, r.current) == Some(empty))
      && (!st.root.Null? && target.Dict? && st.dictKey !in target.entries ==>
            NodeAt(r.root, st.current) == Some(Dict(target.entries[st.dictKey := empty])) && NodeAt(r.root, r.current) == Some(empty))
  {
    if !Completed(st) && !st.root.Null? {
      var target := NodeAt(st.root, st.current).value;
      TopIsCurrent(st);
      if target.Dict? && st.keyFlag {
        PushChild(st, Dict(Emplace(target.entries, st.dictKey, empty)), Member(st.dictKey));
      } else if target.Array? {
        PushChild(st, Array(target.items + [empty]), Index(|target.items|));
      }
    }
  }

  /** Inserting a child into the current container and making it the
      current node keeps the invariant. */
  lemma {:induction false} PushChild(st: State, grown: Node, step: Step)
    requires WellFormed(st) && st.stack != [] && (grown.Dict? || grown.Array?) && Child(grown, step).Some?
    ensures
      var child := Down(st.current, step);
      var r := st.(root := Replace(st.root, st.current, grown), current := child, stack := st.stack + [child], keyFlag := false);
      WellFormed(r) && NodeAt(r.root, st.current) == Some(grown) && NodeAt(r.root, child) == Child(grown, step)
  {
    var child := Down(st.current, step);
    ReplaceAt(st.root, st.current, grown);
    if st.current.Down? {
      ReplaceKeepsRootKind(st.root, st.current, grown);
    }
  }

  /** Closing the innermost container keeps the builder's invariant and
      pops exactly that container. */
  lemma {:induction false} PopEffect(st: State)
    requires WellFormed(st) && st.stack != [] && !st.keyFlag
    ensures WellFormed(Pop(st))
    ensures Pop(st).stack == st.stack[..|st.stack| - 1]
    ensures Pop(st).root == st.root && Pop(st).keyFlag == st.keyFlag
  {
    assert st.stack[..|st.stack| - 1] == if st.current.Root? then [] else Prefixes(st.current.up);
  }

  /** `EndDict` fails while a key is pending and when the innermost open
      container is missing or an Array; otherwise it pops exactly that Dict. */
  lemma {:induction false} EndDictEffect(st: State)
    requires WellFormed(st)
    ensures AfterEndDict(st).Failure? <==> st.keyFlag || !TopIsDict(st)
    ensures AfterEndDict(st).Failure? ==>
      AfterEndDict(st).error == LogicError(if st.keyFlag then END_DICT_PENDING else END_DICT_NOT_DICT)
    ensures AfterEndDict(st).Success? ==>
      WellFormed(AfterEndDict(st).value) && AfterEndDict(st).value.stack == st.stack[..|st.stack| - 1]
      && AfterEndDict(st).value.root == st.root
  {
    if AfterEndDict(st).Success? {
      PopEffect(st);
    }
  }

  /** `EndArray` fails when the innermost open container is missing or a
      Dict; otherwise it pops exactly that Array. */
  lemma {:induction false} EndArrayEffect(st: State)
    requires WellFormed(st)
    ensures AfterEndArray(st).Failure? <==> !TopIsArray(st)
    ensures AfterEndArray(st).Failure? ==> AfterEndArray(st).error == LogicError(END_ARRAY_NOT_ARRAY)
    ensures AfterEndArray(st).Success? ==>
      WellFormed(AfterEndArray(st).value) && AfterEndArray(st).value.stack == st.stack[..|st.stack| - 1]
      && AfterEndArray(st).value.root == st.root && AfterEndArray(st).value.keyFlag == st.keyFlag
  {
    if AfterEndArray(st).Success? {
      TopIsCurrent(st);
      PopEffect(st);
    }
  }

  /** Once `Build` would succeed, no further value or container is taken. */
  lemma {:induction false} CompletedTakesNothing(st: State, v: Node, empty: Node, completed: string, noKey: string)
    requires WellFormed(st) && Built(st).Success?
    ensures AfterValue(st, v) == Failure(LogicError(VALUE_COMPLETED))
    ensures AfterStart(st, empty, completed, noKey) == Failure(LogicError(completed))
  {
  }

  // ---------------------------------------------------------------------------
  // Chains of calls

  /** One call of a fluent chain such as
      `Builder{}.StartDict().Key("a").Value(1).EndDict()`. */
  datatype Call = KeyCall(key: string) | ValueCall(v: Node) | StartDictCall | StartArrayCall | EndDictCall | EndArrayCall

  /** What one call does. */
  function Apply(st: State, c: Call): Result<State>
  {
    match c
    case KeyCall(key) => AfterKey(st, key)
    case ValueCall(v) => AfterValue(st, v)
    case StartDictCall => AfterStart(st, Dict(map[]), START_DICT_COMPLETED, START_DICT_NO_KEY)
    case StartArrayCall => AfterStart(st, Array([]), START_ARRAY_COMPLETED, START_ARRAY_NO_KEY)
    case EndDictCall => AfterEndDict(st)
    case EndArrayCall => AfterEndArray(st)
  }

  /** A chain of calls; the first call that throws ends it. */
  function Run(st: State, calls: seq<Call>): Result<State>
    decreases |calls|
  {
    if calls == [] then Success(st)
    else
      match Apply(st, calls[0])
      case Failure(e) => Failure(e)
      case Success(next) => Run(next, calls[1..])
  }

  lemma {:induction false} RunAppend(st: State, a: seq<Call>, b: seq<Call>)
    ensures Run(st, a + b) == if Run(st, a).Success? then Run(Run(st, a).value, b) else Run(st, a)
    decreases |a|
  {
    if a == [] {
      assert a + b == b;
    } else {
      assert (a + b)[0] == a[0] && (a + b)[1..] == a[1..] + b;
      if Apply(st, a[0]).Success? {
        RunAppend(Apply(st, a[0]).value, a[1..], b);
      }
    }
  }

  /** The calls that describe a node: scalars are passed to `Value`; an Array
      is started, its elements described in order, and closed; a Dict is
      started, each entry described in key order as `Key` followed by the
      entry's value, and closed. */
  function Describe(n: Node): (r: seq<Call>)
    ensures |r| > 0
    decreases n, 2
  {
    match n
    case Array(items) => [StartArrayCall] + DescribeItems(items) + [EndArrayCall]
    case Dict(entries) => DescribeDict(entries)
    case _ => [ValueCall(n)]
  }

  function DescribeDict(entries: map<string, Node>): seq<Call>
    decreases Dict(entries), 1
  {
    [StartDictCall] + DescribeEntries(entries, SortSet(entries.Keys)) + [EndDictCall]
  }

  function DescribeItems(items: seq<Node>): seq<Call>
    decreases items, 0
  {
    if items == [] then [] else Describe(items[0]) + DescribeItems(items[1..])
  }

  function DescribeEntries(entries: map<string, Node>, keys: seq<string>): seq<Call>
    requires forall k :: k in keys ==> k in entries
    decreases Dict(entries), 0, |keys|
  {
    if keys == [] then []
    else [KeyCall(keys[0])] + Describe(entries[keys[0]]) + DescribeEntries(entries, keys[1..])
  }

  /** `acc` with the entries of `entries` under `keys` added, one by one. */
  function Extend(acc: map<string, Node>, entries: map<string, Node>, keys: seq<string>): map<string, Node>
    requires forall k :: k in keys ==> k in entries
    decreases |keys|
  {
    if keys == [] then acc else Extend(acc[keys[0] := entries[keys[0]]], entries, keys[1..])
  }

  lemma {:induction false} ExtendAll(acc: map<string, Node>, entries: map<string, Node>, keys: seq<string>)
    requires forall k :: k in keys ==> k in entries
    ensures Extend(acc, entries, keys).Keys == acc.Keys + set k | k in keys
    ensures forall k :: k in keys ==> Extend(acc, entries, keys)[k] == entries[k]
    ensures forall k :: k in acc && k !in keys ==> Extend(acc, entries, keys)[k] == acc[k]
    decreases |keys|
  {
    if keys != [] {
      ExtendAll(acc[keys[0] := entries[keys[0]]], entries, keys[1..]);
    }
  }

  /** The elements of a set in increasing order are distinct. */
  lemma {:induction false} SortedKeysNew(keys: set<string>)
    ensures NewKeys(SortSet(keys), {})
  {
    var sorted := SortSet(keys);
    SortSetSorted(keys);
    forall i, j | 0 <= i < j < |sorted| ensures sorted[i] != sorted[j] {
      LessIrreflexive(sorted[i]);
    }
    DistinctKeysAreNew(sorted, {});
  }

  /** Adding the entries of a Dict one by one, in key order, to an empty map
      gives the Dict's entries back. */
  lemma {:induction false} ExtendSorted(entries: map<string, Node>)
    ensures Extend(map[], entries, SortSet(entries.Keys)) == entries
  {
    var keys := SortSet(entries.Keys);
    ExtendAll(map[], entries, keys);
    assert Extend(map[], entries, keys).Keys == entries.Keys;
  }

  /** The current node is an open container holding `x`, with no key
      pending. */
  predicate Filling(t: State, x: Node) {
    WellFormed(t) && t.stack != [] && !t.keyFlag && NodeAt(t.root, t.current) == Some(x)
  }

  /** `u` is `t` with the current container's contents now `x`: the same
      containers open and no key pending. */
  predicate Filled(t: State, u: State, x: Node) {
    WellFormed(u) && u.root == Replace(t.root, t.current, x) && u.stack == t.stack && u.current == t.current && !u.keyFlag
  }

  /** Two fills of the same container in a row amount to the second. */
  lemma {:induction false} FilledChain(t: State, v: State, w: State, a: Node, b: Node)
    requires NodeAt(t.root, t.current).Some?
    requires Filled(t, v, a) && Filled(v, w, b)
    ensures Filled(t, w, b)
  {
    ReplaceTwice(t.root, t.current, a, b);
  }

  /** The two states hold the same document with the same containers open
      and the same pending-key flag. (The remembered key is only ever read
      while a key is pending, so it is not compared.) */
  predicate SameDocument(a: State, b: State) {
    a.root == b.root && a.stack == b.stack && a.current == b.current && a.keyFlag == b.keyFlag
  }

  /** The builder would take a value now: nothing is built yet, or the
      current node is an Array, or a Dict with a new key pending. */
  predicate TakesValue(st: State) {
    && WellFormed(st)
    && !Completed(st)
    && (st.root.Null? ||
        var target := NodeAt(st.root, st.current).value;
        target.Array? || (target.Dict? && st.keyFlag && st.dictKey !in target.entries))
  }

  /** Opening a container, filling it with `x`'s contents and closing it
      leaves the builder as passing `x` to `Value` would. */
  lemma {:induction false} CloseActsAsValue(st: State, empty: Node, completed: string, noKey: string, x: Node, u: State)
    requires TakesValue(st)
    requires (empty == Dict(map[]) && x.Dict?) || (empty == Array([]) && x.Array?)
    requires AfterStart(st, empty, completed, noKey).Success?
    requires
      var started := AfterStart(st, empty, completed, noKey).value;
      WellFormed(u) && u.root == Replace(started.root, started.current, x)
      && u.stack == started.stack && u.current == started.current && !u.keyFlag
    ensures u.stack != [] && !u.keyFlag
    ensures AfterValue(st, x).Success? && SameDocument(Pop(u), AfterValue(st, x).value)
  {
    var started := AfterStart(st, empty, completed, noKey).value;
    StartEffect(st, empty, completed, noKey);
    ValueEffect(st, x);
    if !st.root.Null? {
      TopIsCurrent(st);
      var target := NodeAt(st.root, st.current).value;
      var grown := if target.Array? then Array(target.items + [empty]) else Dict(Emplace(target.entries, st.dictKey, empty));
      var step := if target.Array? then Index(|target.items|) else Member(st.dictKey);
      assert started.root == Replace(st.root, st.current, grown) && started.current == Down(st.current, step);
      ReplaceAt(st.root, st.current, grown);
      ReplaceTwice(st.root, st.current, grown, Put(grown, step, x));
      if target.Array? {
        PutNewLast(target.items, empty, x);
      } else {
        PutNewMember(target.entries, st.dictKey, empty, x);
      }
      if st.stack != [] {
        assert started.stack[..|st.stack|] == st.stack;
      }
    }
  }

  /** A builder that takes a value opens a container as its new current
      node, with no key pending. */
  lemma {:induction false} Opens(st: State, empty: Node, completed: string, noKey: string)
    requires TakesValue(st) && (empty == Dict(map[]) || empty == Array([]))
    ensures AfterStart(st, empty, completed, noKey).Success?
    ensures
      var started := AfterStart(st, empty, completed, noKey).value;
      Filling(started, empty)
  {
    StartEffect(st, empty, completed, noKey);
    if !st.root.Null? {
      TopIsCurrent(st);
    }
  }

  /** The call that opens a container, calls that fill it with the contents
      of `x`, and the call that closes it, together act as `Value(x)`. */
  lemma {:induction false} Bracket(st: State, open: Call, body: seq<Call>, close: Call, x: Node)
    requires TakesValue(st)
    requires (open == StartArrayCall && close == EndArrayCall && x.Array?) || (open == StartDictCall && close == EndDictCall && x.Dict?)
    requires Apply(st, open).Success? && Run(Apply(st, open).value, body).Success?
    requires
      var started := Apply(st, open).value;
      NodeAt(started.root, started.current).Some? && Filled(started, Run(started, body).value, x)
    ensures AfterValue(st, x).Success?
    ensures Run(st, [open] + body + [close]).Success?
    ensures SameDocument(Run(st, [open] + body + [close]).value, AfterValue(st, x).value)
  {
    var started := Apply(st, open).value;
    var u := Run(started, body).value;
    if open == StartArrayCall {
      CloseActsAsValue(st, Array([]), START_ARRAY_COMPLETED, START_ARRAY_NO_KEY, x, u);
    } else {
      CloseActsAsValue(st, Dict(map[]), START_DICT_COMPLETED, START_DICT_NO_KEY, x, u);
    }
    ReplaceAt(started.root, started.current, x);
    TopIsCurrent(u);
    assert Apply(u, close) == Success(Pop(u));
    assert Run(st, [open]) == Run(started, []);
    RunAppend(st, [open], body);
    RunAppend(st, [open] + body, [close]);
    assert Run(u, [close]) == Run(Pop(u), []);
  }

  /** Describing a node to a builder that takes a value has the effect of
      passing the node to `Value` at once. */
  lemma {:induction false} DescribeActsAsValue(st: State, n: Node)
    requires TakesValue(st)
    ensures AfterValue(st, n).Success?
    ensures Run(st, Describe(n)).Success? && SameDocument(Run(st, Describe(n)).value, AfterValue(st, n).value)
    decreases n, 2
  {
    match n
    case Array(items) => DescribeArrayActsAsValue(st, items);
    case Dict(entries) => DescribeDictActsAsValue(st, entries);
    case _ =>
      ValueEffect(st, n);
      assert Run(st, Describe(n)) == Run(AfterValue(st, n).value, []);
  }

  lemma {:induction false} DescribeArrayActsAsValue(st: State, items: seq<Node>)
    requires TakesValue(st)
    ensures AfterValue(st, Array(items)).Success?
    ensures Run(st, Describe(Array(items))).Success?
    ensures SameDocument(Run(st, Describe(Array(items))).value, AfterValue(st, Array(items)).value)
    decreases items, 1
  {
    Opens(st, Array([]), START_ARRAY_COMPLETED, START_ARRAY_NO_KEY);
    var started := Apply(st, StartArrayCall).value;
    DescribeItemsAppend(started, [], items);
    assert [] + items == items;
    Bracket(st, StartArrayCall, DescribeItems(items), EndArrayCall, Array(items));
  }

  lemma {:induction false} DescribeDictActsAsValue(st: State, entries: map<string, Node>)
    requires TakesValue(st)
    ensures AfterValue(st, Dict(entries)).Success?
    ensures Run(st, Describe(Dict(entries))).Success?
    ensures SameDocument(Run(st, Describe(Dict(entries))).value, AfterValue(st, Dict(entries)).value)
    decreases Dict(entries), 1
  {
    var keys := SortSet(entries.Keys);
    SortedKeysNew(entries.Keys);
    ExtendSorted(entries);
    Opens(st, Dict(map[]), START_DICT_COMPLETED, START_DICT_NO_KEY);
    var started := Apply(st, StartDictCall).value;
    var none: map<string, Node> := map[];
    assert none.Keys == {};
    DescribeEntriesFill(started, map[], entries, keys);
    Bracket(st, StartDictCall, DescribeEntries(entries, keys), EndDictCall, Dict(entries));
  }

  /** Describing elements into an open Array appends them in order. */
  lemma {:induction false} DescribeItemsAppend(t: State, pre: seq<Node>, items: seq<Node>)
    requires Filling(t, Array(pre))
    ensures Run(t, DescribeItems(items)).Success?
    ensures
      var u := Run(t, DescribeItems(items)).value;
      Filled(t, u, Array(pre + items))
    decreases items, 0
  {
    if items == [] {
      assert pre + items == pre;
      ReplaceSame(t.root, t.current, Array(pre));
    } else {
      var x := items[0];
      DescribeItem(t, pre, x);
      var v := Run(t, Describe(x)).value;
      RunAppend(t, Describe(x), DescribeItems(items[1..]));
      DescribeItemsAppend(v, pre + [x], items[1..]);
      assert pre + [x] + items[1..] == pre + items;
      FilledChain(t, v, Run(v, DescribeItems(items[1..])).value, Array(pre + [x]), Array(pre + items));
    }
  }

  /** Describing one element into an open Array appends it. */
  lemma {:induction false} DescribeItem(t: State, pre: seq<Node>, x: Node)
    requires Filling(t, Array(pre))
    ensures Run(t, Describe(x)).Success?
    ensures
      var v := Run(t, Describe(x)).value;
      Filled(t, v, Array(pre + [x])) && Filling(v, Array(pre + [x]))
    decreases x, 3
  {
    ValueEffect(t, x);
    DescribeActsAsValue(t, x);
    ReplaceAt(t.root, t.current, Array(pre + [x]));
  }

  /** No key of `keys` is in `used` or occurs twice in `keys`. */
  predicate NewKeys(keys: seq<string>, used: set<string>)
    decreases |keys|
  {
    keys == [] || (keys[0] !in used && NewKeys(keys[1..], used + {keys[0]}))
  }

  lemma {:induction false} DistinctKeysAreNew(keys: seq<string>, used: set<string>)
    requires forall i, j :: 0 <= i < j < |keys| ==> keys[i] != keys[j]
    requires forall i :: 0 <= i < |keys| ==> keys[i] !in used
    ensures NewKeys(keys, used)
    decreases |keys|
  {
    if keys != [] {
      forall i | 0 <= i < |keys[1..]| ensures keys[1..][i] !in used + {keys[0]} {
        assert keys[1..][i] == keys[i + 1];
      }
      DistinctKeysAreNew(keys[1..], used + {keys[0]});
    }
  }

  /** Describing entries with new, distinct keys into an open Dict adds
      them. */
  lemma {:induction false} DescribeEntriesFill(t: State, acc: map<string, Node>, entries: map<string, Node>, keys: seq<string>)
    requires forall k :: k in keys ==> k in entries
    requires NewKeys(keys, acc.Keys)
    requires Filling(t, Dict(acc))
    ensures Run(t, DescribeEntries(entries, keys)).Success?
    ensures
      var u := Run(t, DescribeEntries(entries, keys)).value;
      Filled(t, u, Dict(Extend(acc, entries, keys)))
    decreases Dict(entries), 0, |keys|
  {
    if keys == [] {
      ReplaceSame(t.root, t.current, Dict(acc));
    } else {
      var k := keys[0];
      var x := entries[k];
      DescribeEntry(t, acc, k, x);
      var v := Run(t, [KeyCall(k)] + Describe(x)).value;
      assert DescribeEntries(entries, keys) == [KeyCall(k)] + Describe(x) + DescribeEntries(entries, keys[1..]);
      RunAppend(t, [KeyCall(k)] + Describe(x), DescribeEntries(entries, keys[1..]));
      assert acc[k := x].Keys == acc.Keys + {k};
      DescribeEntriesFill(v, acc[k := x], entries, keys[1..]);
      FilledChain(t, v, Run(v, DescribeEntries(entries, keys[1..])).value, Dict(acc[k := x]), Dict(Extend(acc, entries, keys)));
    }
  }

  /** `Key` with a new key followed by the description of a value adds the
      entry to the open Dict. */
  lemma {:induction false} DescribeEntry(t: State, acc: map<string, Node>, k: string, x: Node)
    requires k !in acc
    requires Filling(t, Dict(acc))
    ensures Run(t, [KeyCall(k)] + Describe(x)).Success?
    ensures
      var v := Run(t, [KeyCall(k)] + Describe(x)).value;
      Filled(t, v, Dict(acc[k := x])) && Filling(v, Dict(acc[k := x]))
    decreases x, 3
  {
    TopIsCurrent(t);
    var keyed := AfterKey(t, k).value;
    ValueEffect(keyed, x);
    DescribeActsAsValue(keyed, x);
    assert Run(t, [KeyCall(k)]) == Run(keyed, []);
    RunAppend(t, [KeyCall(k)], Describe(x));
    ReplaceAt(t.root, t.current, Dict(acc[k := x]));
  }

  /** The chain of calls that describes any non-null node builds exactly
      that node. */
  lemma {:induction false} BuildDescribed(n: Node)
    requires !n.Null?
    ensures Run(START, Describe(n)).Success?
    ensures Built(Run(START, Describe(n)).value) == Success(n)
  {
    DescribeActsAsValue(START, n);
  }

  // ---------------------------------------------------------------------------
  // Dicts written field by field

  /** One `Key(key)` call and the value after it: either passed whole to
      `Value`, or spelled out call by call as `Describe` does (an Array
      written as `StartArray()`, its elements, `EndArray()`). */
  datatype Field = Field(key: string, value: Node, spelled: bool)

  function FieldCalls(f: Field): seq<Call> {
    [KeyCall(f.key)] + (if f.spelled then Describe(f.value) else [ValueCall(f.value)])
  }

  function FieldsCalls(fields: seq<Field>): seq<Call> {
    if fields == [] then [] else FieldCalls(fields[0]) + FieldsCalls(fields[1..])
  }

  /** `StartDict()`, the fields in order, `EndDict()`. */
  function DictCalls(fields: seq<Field>): seq<Call> {
    [StartDictCall] + FieldsCalls(fields) + [EndDictCall]
  }

  function FieldKeys(fields: seq<Field>): (r: seq<string>)
    ensures |r| == |fields| && forall i :: 0 <= i < |fields| ==> r[i] == fields[i].key
  {
    seq(|fields|, i requires 0 <= i < |fields| => fields[i].key)
  }

  /** The entries the fields add to an empty Dict. */
  function FieldMap(fields: seq<Field>): (r: map<string, Node>)
    ensures forall f :: f in fields ==> f.key in r
  {
    if fields == [] then map[] else FieldMap(fields[1..])[fields[0].key := fields[0].value]
  }

  /** The Dict a field chain with distinct keys writes. */
  function FieldDict(fields: seq<Field>): Node {
    Dict(FieldMap(fields))
  }

  /** With distinct keys, each field's value is the entry under its key, and
      the Dict has no other keys. */
  lemma {:induction false} FieldMapEntries(fields: seq<Field>)
    requires NewKeys(FieldKeys(fields), {})
    ensures FieldMap(fields).Keys == set f | f in fields :: f.key
    ensures forall f :: f in fields ==> FieldMap(fields)[f.key] == f.value
  {
    if fields != [] {
      NewKeysTail(FieldKeys(fields), {});
      assert FieldKeys(fields[1..]) == FieldKeys(fields)[1..];
      assert {} + {fields[0].key} == {fields[0].key};
      NewKeysWeaken(FieldKeys(fields)[1..], {fields[0].key}, {});
      FieldMapEntries(fields[1..]);
      forall f | f in fields[1..] ensures f.key != fields[0].key {
        NewKeysExclude(FieldKeys(fields)[1..], {fields[0].key}, f.key);
      }
      assert fields == [fields[0]] + fields[1..];
    }
  }

  lemma {:induction false} NewKeysTail(keys: seq<string>, used: set<string>)
    requires NewKeys(keys, used) && keys != []
    ensures NewKeys(keys[1..], used + {keys[0]})
  {
  }

  lemma {:induction false} NewKeysWeaken(keys: seq<string>, used: set<string>, fewer: set<string>)
    requires NewKeys(keys, used) && fewer <= used
    ensures NewKeys(keys, fewer)
    decreases |keys|
  {
    if keys != [] {
      NewKeysWeaken(keys[1..], used + {keys[0]}, fewer + {keys[0]});
    }
  }

  lemma {:induction false} NewKeysExclude(keys: seq<string>, used: set<string>, k: string)
    requires NewKeys(keys, used) && k in keys
    ensures k !in used
    decreases |keys|
  {
    if keys[0] != k {
      NewKeysExclude(keys[1..], used + {keys[0]}, k);
    }
  }

  /** `Key` with a new key and the field's value add the entry to the open
      Dict. */
  lemma {:induction false} FieldStep(t: State, acc: map<string, Node>, f: Field)
    requires f.key !in acc
    requires Filling(t, Dict(acc))
    ensures Run(t, FieldCalls(f)).Success?
    ensures
      var v := Run(t, FieldCalls(f)).value;
      Filled(t, v, Dict(acc[f.key := f.value])) && Filling(v, Dict(acc[f.key := f.value]))
  {
    TopIsCurrent(t);
    var keyed := AfterKey(t, f.key).value;
    ValueEffect(keyed, f.value);
    var body := if f.spelled then Describe(f.value) else [ValueCall(f.value)];
    if f.spelled {
      DescribeActsAsValue(keyed, f.value);
    } else {
      assert Run(keyed, body) == Run(AfterValue(keyed, f.value).value, []);
    }
    assert Run(t, [KeyCall(f.key)]) == Run(keyed, []);
    RunAppend(t, [KeyCall(f.key)], body);
    ReplaceAt(t.root, t.current, Dict(acc[f.key := f.value]));
  }

  /** Fields with new, distinct keys written into an open Dict add their
      entries. */
  lemma {:induction false} FieldsFill(t: State, acc: map<string, Node>, fields: seq<Field>)
    requires NewKeys(FieldKeys(fields), acc.Keys)
    requires Filling(t, Dict(acc))
    ensures Run(t, FieldsCalls(fields)).Success?
    ensures
      var u := Run(t, FieldsCalls(fields)).value;
      Filled(t, u, Dict(acc + FieldMap(fields)))
    decreases |fields|
  {
    if fields == [] {
      assert acc + FieldMap(fields) == acc;
      ReplaceSame(t.root, t.current, Dict(acc));
    } else {
      var f := fields[0];
      var rest := fields[1..];
      assert FieldKeys(rest) == FieldKeys(fields)[1..];
      FieldStep(t, acc, f);
      var v := Run(t, FieldCalls(f)).value;
      RunAppend(t, FieldCalls(f), FieldsCalls(rest));
      assert acc[f.key := f.value].Keys == acc.Keys + {f.key};
      FieldsFill(v, acc[f.key := f.value], rest);
      FieldMapShift(acc, f, rest);
      FilledChain(t, v, Run(v, FieldsCalls(rest)).value, Dict(acc[f.key := f.value]), Dict(acc + FieldMap(fields)));
    }
  }

  lemma {:induction false} FieldMapShift(acc: map<string, Node>, f: Field, rest: seq<Field>)
    requires NewKeys(FieldKeys(rest), acc.Keys + {f.key})
    ensures acc[f.key := f.value] + FieldMap(rest) == acc + FieldMap([f] + rest)
  {
    assert ([f] + rest)[1..] == rest;
    if f.key in FieldMap(rest) {
      FieldMapKeys(rest, f.key);
      NewKeysExclude(FieldKeys(rest), acc.Keys + {f.key}, f.key);
    }
  }

  lemma {:induction false} FieldMapKeys(fields: seq<Field>, k: string)
    requires k in FieldMap(fields)
    ensures k in FieldKeys(fields)
    decreases |fields|
  {
    if fields[0].key != k {
      FieldMapKeys(fields[1..], k);
      assert FieldKeys(fields[1..]) == FieldKeys(fields)[1..];
    }
  }

  /** A field chain with distinct keys acts as passing the Dict it writes to
      `Value` at once. */
  lemma {:induction false} DictCallsActAsValue(st: State, fields: seq<Field>)
    requires TakesValue(st) && NewKeys(FieldKeys(fields), {})
    ensures AfterValue(st, FieldDict(fields)).Success?
    ensures Run(st, DictCalls(fields)).Success?
    ensures SameDocument(Run(st, DictCalls(fields)).value, AfterValue(st, FieldDict(fields)).value)
  {
    Opens(st, Dict(map[]), START_DICT_COMPLETED, START_DICT_NO_KEY);
    var started := Apply(st, StartDictCall).value;
    var none: map<string, Node> := map[];
    assert none.Keys == {} && none + FieldMap(fields) == FieldMap(fields);
    FieldsFill(started, map[], fields);
    Bracket(st, StartDictCall, FieldsCalls(fields), EndDictCall, FieldDict(fields));
  }

  /** A fresh builder given a field chain with distinct keys builds exactly
      the Dict the fields write. */
  lemma {:induction false} BuildFields(fields: seq<Field>)
    requires NewKeys(FieldKeys(fields), {})
    ensures Run(START, DictCalls(fields)).Success?
    ensures Built(Run(START, DictCalls(fields)).value) == Success(FieldDict(fields))
  {
    DictCallsActAsValue(START, fields);
  }

  /** Several field chains, one after another. */
  function DictsCalls(dicts: seq<seq<Field>>): seq<Call> {
    if dicts == [] then [] else DictsCalls(dicts[..|dicts| - 1]) + DictCalls(dicts[|dicts| - 1])
  }

  function FieldDicts(dicts: seq<seq<Field>>): (r: seq<Node>)
    ensures |r| == |dicts|
  {
    if dicts == [] then [] else FieldDicts(dicts[..|dicts| - 1]) + [FieldDict(dicts[|dicts| - 1])]
  }

  /** Every chain writes distinct keys. */
  predicate DistinctFields(dicts: seq<seq<Field>>) {
    dicts == [] || (DistinctFields(dicts[..|dicts| - 1]) && NewKeys(FieldKeys(dicts[|dicts| - 1]), {}))
  }

  /** Field chains written into an open Array append their Dicts in order. */
  lemma {:induction false} DictsAppend(t: State, pre: seq<Node>, dicts: seq<seq<Field>>)
    requires DistinctFields(dicts)
    requires Filling(t, Array(pre))
    ensures Run(t, DictsCalls(dicts)).Success?
    ensures
      var u := Run(t, DictsCalls(dicts)).value;
      Filled(t, u, Array(pre + FieldDicts(dicts))) && Filling(u, Array(pre + FieldDicts(dicts)))
    decreases |dicts|
  {
    if dicts == [] {
      assert pre + FieldDicts(dicts) == pre;
      ReplaceSame(t.root, t.current, Array(pre));
    } else {
      var init := dicts[..|dicts| - 1];
      var last := dicts[|dicts| - 1];
      DictsAppend(t, pre, init);
      var v := Run(t, DictsCalls(init)).value;
      DictItem(v, pre + FieldDicts(init), last);
      RunAppend(t, DictsCalls(init), DictCalls(last));
      assert pre + FieldDicts(init) + [FieldDict(last)] == pre + FieldDicts(dicts);
      FilledChain(t, v, Run(v, DictCalls(last)).value, Array(pre + FieldDicts(init)), Array(pre + FieldDicts(dicts)));
    }
  }

  /** One field chain written into an open Array appends its Dict. */
  lemma {:induction false} DictItem(t: State, pre: seq<Node>, fields: seq<Field>)
    requires NewKeys(FieldKeys(fields), {})
    requires Filling(t, Array(pre))
    ensures Run(t, DictCalls(fields)).Success?
    ensures
      var v := Run(t, DictCalls(fields)).value;
      Filled(t, v, Array(pre + [FieldDict(fields)])) && Filling(v, Array(pre + [FieldDict(fields)]))
  {
    ValueEffect(t, FieldDict(fields));
    DictCallsActAsValue(t, fields);
    ReplaceAt(t.root, t.current, Array(pre + [FieldDict(fields)]));
  }

  /** `StartArray()`, the field chains, `EndArray()` and `Build()` on a fresh
      builder give the Array of the Dicts the chains write. */
  lemma {:induction false} BuildDicts(dicts: seq<seq<Field>>)
    requires DistinctFields(dicts)
    ensures Run(START, [StartArrayCall] + DictsCalls(dicts) + [EndArrayCall]).Success?
    ensures Built(Run(START, [StartArrayCall] + DictsCalls(dicts) + [EndArrayCall]).value) == Success(Array(FieldDicts(dicts)))
  {
    Opens(START, Array([]), START_ARRAY_COMPLETED, START_ARRAY_NO_KEY);
    var started := Apply(START, StartArrayCall).value;
    DictsAppend(started, [], dicts);
    assert [] + FieldDicts(dicts) == FieldDicts(dicts);
    Bracket(START, StartArrayCall, DictsCalls(dicts), EndArrayCall, Array(FieldDicts(dicts)));
  }

  // ---------------------------------------------------------------------------
  // The builder object

  class Builder {
    var root: Node
    var stack: seq<Path>
    var current: Path
    var dictKey: string
    var keyFlag: bool

    function Snapshot(): State
      reads this
    {
      State(root, stack, current, dictKey, keyFlag)
    }

    ghost predicate Valid()
      reads this
    {
      WellFormed(Snapshot())
    }

    constructor()
      ensures Valid() && Snapshot() == START
    {
      root := Null;
      stack := [];
      current := Root;
      dictKey := "";
      keyFlag := false;
    }

    method Key(key: string) returns (r: Outcome)
      requires Valid()
      modifies this
      ensures Valid()
      ensures r.Pass? <==> AfterKey(old(Snapshot()), key).Success?
      ensures r.Pass? ==> Snapshot() == AfterKey(old(Snapshot()), key).value
      ensures r.Fail? ==> r.error == AfterKey(old(Snapshot()), key).error && Snapshot() == old(Snapshot())
    {
      if stack == [] || !(NodeAt(root, stack[|stack| - 1]).Some? && NodeAt(root, stack[|stack| - 1]).value.Dict?) {
        return Fail(LogicError(KEY_OUTSIDE_DICT));
      }
      if keyFlag {
        return Fail(LogicError(KEY_TWICE));
      }
      dictKey := key;
      keyFlag := true;
      return Pass;
    }

    method Value(v: Node) returns (r: Outcome)
      requires Valid()
      modifies this
      ensures Valid()
      ensures r.Pass? <==> AfterValue(old(Snapshot()), v).Success?
      ensures r.Pass? ==> Snapshot() == AfterValue(old(Snapshot()), v).value
      ensures r.Fail? ==> r.error == AfterValue(old(Snapshot()), v).error && Snapshot() == old(Snapshot())
    {
      ValueEffect(Snapshot(), v);
      if !root.Null? && stack == [] {
        return Fail(LogicError(VALUE_COMPLETED));
      }
      if root.Null? {
        root := v;
      } else {
        var target := NodeAt(root, current).value;
        if target.Dict? {
          if !keyFlag {
            return Fail(LogicError(VALUE_NO_KEY));
          }
          root := Replace(root, current, Dict(Emplace(target.entries, dictKey, v)));
          keyFlag := false;
        } else if target.Array? {
          root := Replace(root, current, Array(target.items + [v]));
        }
      }
      return Pass;
    }

    /** The body StartDict and StartArray share. */
    method Start(empty: Node, completed: string, noKey: string) returns (r: Outcome)
      requires Valid() && (empty == Dict(map[]) || empty == Array([]))
      modifies this
      ensures Valid()
      ensures r.Pass? <==> AfterStart(old(Snapshot()), empty, completed, noKey).Success?
      ensures r.Pass? ==> Snapshot() == AfterStart(old(Snapshot()), empty, completed, noKey).value
      ensures r.Fail? ==> r.error == AfterStart(old(Snapshot()), empty, completed, noKey).error && Snapshot() == old(Snapshot())
    {
      StartEffect(Snapshot(), empty, completed, noKey);
      if !root.Null? && stack == [] {
        return Fail(LogicError(completed));
      }
      if root.Null? {
        root := empty;
        stack := stack + [current];
      } else {
        var target := NodeAt(root, current).value;
        if target.Dict? {
          if !keyFlag {
            return Fail(LogicError(noKey));
          }
          root := Replace(root, current, Dict(Emplace(target.entries, dictKey, empty)));
          current := Down(current, Member(dictKey));
          stack := stack + [current];
          keyFlag := false;
        } else if target.Array? {
          root := Replace(root, current, Array(target.items + [empty]));
          current := Down(current, Index(|target.items|));
          stack := stack + [current];
        }
      }
      return Pass;
    }

    method StartDict() returns (r: Outcome)
      requires Valid()
      modifies this
      ensures Valid()
      ensures r.Pass? <==> AfterStart(old(Snapshot()), Dict(map[]), START_DICT_COMPLETED, START_DICT_NO_KEY).Success?
      ensures r.Pass? ==> Snapshot() == AfterStart(old(Snapshot()), Dict(map[]), START_DICT_COMPLETED, START_DICT_NO_KEY).value
      ensures r.Fail? ==> (Snapshot() == old(Snapshot())
        && r.error == AfterStart(old(Snapshot()), Dict(map[]), START_DICT_COMPLETED, START_DICT_NO_KEY).error)
    {
      r := Start(Dict(map[]), START_DICT_COMPLETED, START_DICT_NO_KEY);
    }

    method StartArray() returns (r: Outcome)
      requires Valid()
      modifies this
      ensures Valid()
      ensures r.Pass? <==> AfterStart(old(Snapshot()), Array([]), START_ARRAY_COMPLETED, START_ARRAY_NO_KEY).Success?
      ensures r.Pass? ==> Snapshot() == AfterStart(old(Snapshot()), Array([]), START_ARRAY_COMPLETED, START_ARRAY_NO_KEY).value
      ensures r.Fail? ==> (Snapshot() == old(Snapshot())
        && r.error == AfterStart(old(Snapshot()), Array([]), START_ARRAY_COMPLETED, START_ARRAY_NO_KEY).error)
    {
      r := Start(Array([]), START_ARRAY_COMPLETED, START_ARRAY_NO_KEY);
    }

    method EndDict() returns (r: Outcome)
      requires Valid()
      modifies this
      ensures Valid()
      ensures r.Pass? <==> AfterEndDict(old(Snapshot())).Success?
      ensures r.Pass? ==> Snapshot() == AfterEndDict(old(Snapshot())).value
      ensures r.Fail? ==> r.error == AfterEndDict(old(Snapshot())).error && Snapshot() == old(Snapshot())
    {
      EndDictEffect(Snapshot());
      if keyFlag {
        return Fail(LogicError(END_DICT_PENDING));
      }
      if stack == [] || !(NodeAt(root, stack[|stack| - 1]).Some? && NodeAt(root, stack[|stack| - 1]).value.Dict?) {
        return Fail(LogicError(END_DICT_NOT_DICT));
      }
      stack := stack[..|stack| - 1];
      current := if stack == [] then Root else stack[|stack| - 1];
      return Pass;
    }

    method EndArray() returns (r: Outcome)
      requires Valid()
      modifies this
      ensures Valid()
      ensures r.Pass? <==> AfterEndArray(old(Snapshot())).Success?
      ensures r.Pass? ==> Snapshot() == AfterEndArray(old(Snapshot())).value
      ensures r.Fail? ==> r.error == AfterEndArray(old(Snapshot())).error && Snapshot() == old(Snapshot())
    {
      EndArrayEffect(Snapshot());
      if stack == [] || !(NodeAt(root, stack[|stack| - 1]).Some? && NodeAt(root, stack[|stack| - 1]).value.Array?) {
        return Fail(LogicError(END_ARRAY_NOT_ARRAY));
      }
      stack := stack[..|stack| - 1];
      current := if stack == [] then Root else stack[|stack| - 1];
      return Pass;
    }

    method Build() returns (r: Result<Node>)
      ensures r == Built(Snapshot())
    {
      if root.Null? || stack != [] {
        return Failure(LogicError(BUILD_INCOMPLETE));
      }
      return Success(root);
    }
  }
}
