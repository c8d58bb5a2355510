/**
 Layered configuration: which layer may write a key, and how the layers' values fold into the effective
 one.
 */
module ConfigLayers {
  import opened Options
  import opened Sorting

  datatype LayerKind = Machine | User | Workspace

  /** The broadest layer allowed to write a key. */
  datatype Scope = MachineScope | UserScope | WorkspaceScope

  datatype Merge = Replace | Append | SetUnion | Deep

  datatype Value =
    | Bool(b: bool)
    | Int(i: int)
    | Str(s: string)
    | List(items: seq<string>)
    | Table(m: map<string, Value>)

  datatype KeyDef = KeyDef(key: string, scope: Scope, locked: bool, merge: Merge, listDefault: seq<string>)

  /** One typed value as a layer's file writes it. */
  datatype Entry = Entry(key: string, value: Value)

  datatype Layer = Layer(kind: LayerKind, entries: seq<Entry>)

  datatype Contribution = Contribution(value: Value, kind: LayerKind)

  predicate Allows(scope: Scope, kind: LayerKind) {
    match scope
    case MachineScope => kind == Machine
    case UserScope => kind != Workspace
    case WorkspaceScope => true
  }

  /** The gate on one entry: in scope, and a workspace never writes a locked key. */
  predicate Admitted(def: KeyDef, kind: LayerKind) {
    Allows(def.scope, kind) && !(kind == Workspace && def.locked)
  }

  function FromLayer(def: KeyDef, layer: Layer): seq<Contribution> {
    if !Admitted(def, layer.kind) then [] else Mentions(def.key, layer.kind, layer.entries)
  }

  function Mentions(key: string, kind: LayerKind, entries: seq<Entry>): seq<Contribution> {
    if entries == [] then []
    else (if entries[0].key == key then [Contribution(entries[0].value, kind)] else [])
         + Mentions(key, kind, entries[1..])
  }

  /** What the layers, lowest first, contribute to a key. */
  function Contributions(def: KeyDef, layers: seq<Layer>): seq<Contribution> {
    if layers == [] then [] else FromLayer(def, layers[0]) + Contributions(def, layers[1..])
  }

  // ----- Lists

  datatype Token = Add(item: string) | Remove(item: string)

  function TokenOf(item: string): Token {
    if item != [] && item[0] == '!' then Remove(item[1..]) else Add(item)
  }

  function TokensOf(items: seq<string>): seq<Token> {
    if items == [] then [] else [TokenOf(items[0])] + TokensOf(items[1..])
  }

  function AddAll(items: seq<string>): seq<Token> {
    if items == [] then [] else [Add(items[0])] + AddAll(items[1..])
  }

  function LayerTokens(cs: seq<Contribution>): seq<Token> {
    if cs == [] then []
    else (if cs[0].value.List? then TokensOf(cs[0].value.items) else []) + LayerTokens(cs[1..])
  }

  /** Every mention in order: the default's items, then each layer's. */
  function Tokens(def: KeyDef, cs: seq<Contribution>): seq<Token> {
    AddAll(def.listDefault) + LayerTokens(cs)
  }

  function Without(list: seq<string>, x: string): seq<string> {
    if list == [] then []
    else Without(list[..|list| - 1], x) + if list[|list| - 1] == x then [] else [list[|list| - 1]]
  }

  function Listed1(list: seq<string>, t: Token): seq<string> {
    match t case Add(x) => list + [x] case Remove(x) => Without(list, x)
  }

  function Listed(list: seq<string>, tokens: seq<Token>): seq<string>
    decreases |tokens|
  {
    if tokens == [] then list else Listed(Listed1(list, tokens[0]), tokens[1..])
  }

  /** Whether the last mention of `x` adds it. */
  function LastMention(tokens: seq<Token>, x: string): Option<bool> {
    if tokens == [] then None
    else if tokens[|tokens| - 1].item == x then Some(tokens[|tokens| - 1].Add?)
    else LastMention(tokens[..|tokens| - 1], x)
  }

  lemma {:induction false} WithoutMembers(list: seq<string>, x: string, y: string)
    ensures y in Without(list, x) <==> y in list && y != x
    decreases |list|
  {
    if list != [] {
      var n := |list| - 1;
      WithoutMembers(list[..n], x, y);
      assert list == list[..n] + [list[n]];
    }
  }

  lemma {:induction false} ListedLast(list: seq<string>, tokens: seq<Token>)
    requires tokens != []
    ensures Listed(list, tokens) == Listed1(Listed(list, tokens[..|tokens| - 1]), tokens[|tokens| - 1])
    decreases |tokens|
  {
    var n := |tokens| - 1;
    if n == 0 {
      assert tokens[1..] == [] && tokens[..0] == [];
      assert Listed(Listed1(list, tokens[0]), []) == Listed1(list, tokens[0]);
    } else {
      ListedLast(Listed1(list, tokens[0]), tokens[1..]);
      assert tokens[1..][..n - 1] == tokens[..n][1..];
      assert tokens[1..][n - 1] == tokens[n];
      assert tokens[..n][0] == tokens[0];
    }
  }

  /** An item is in the list exactly when its last mention, over the default and all layers, adds it. */
  lemma {:induction false} ListedIffLastAdds(tokens: seq<Token>, x: string)
    ensures x in Listed([], tokens) <==> LastMention(tokens, x) == Some(true)
    decreases |tokens|
  {
    if tokens != [] {
      var n := |tokens| - 1;
      ListedLast([], tokens);
      ListedIffLastAdds(tokens[..n], x);
      match tokens[n]
      case Add(y) =>
      case Remove(y) => WithoutMembers(Listed([], tokens[..n]), y, x);
    }
  }

  lemma {:induction false} ListedAppend(list: seq<string>, a: seq<Token>, b: seq<Token>)
    ensures Listed(list, a + b) == Listed(Listed(list, a), b)
    decreases |a|
  {
    if a == [] {
      assert a + b == b;
    } else {
      assert (a + b)[0] == a[0] && (a + b)[1..] == a[1..] + b;
      ListedAppend(Listed1(list, a[0]), a[1..], b);
    }
  }

  lemma {:induction false} DefaultListed(items: seq<string>, list: seq<string>)
    ensures Listed(list, AddAll(items)) == list + items
    decreases |items|
  {
    if items != [] {
      DefaultListed(items[1..], list + [items[0]]);
      assert AddAll(items)[1..] == AddAll(items[1..]);
      assert list + [items[0]] + items[1..] == list + items;
    }
  }

  /** One layer's list, item by item. */
  method ApplyItems(list: seq<string>, items: seq<string>) returns (out: seq<string>)
    ensures out == Listed(list, TokensOf(items))
  {
    out := list;
    for i := 0 to |items|
      invariant Listed(out, TokensOf(items[i..])) == Listed(list, TokensOf(items))
    {
      var t := TokenOf(items[i]);
      assert TokensOf(items[i..]) == [t] + TokensOf(items[i + 1..]) by {
        assert items[i..][1..] == items[i + 1..];
      }
      assert ([t] + TokensOf(items[i + 1..]))[1..] == TokensOf(items[i + 1..]);
      if t.Remove? {
        out := Without(out, t.item);
      } else {
        out := out + [t.item];
      }
    }
  }

  method MergeLists(def: KeyDef, cs: seq<Contribution>) returns (out: seq<string>)
    ensures out == Listed([], Tokens(def, cs))
  {
    out := def.listDefault;
    DefaultListed(def.listDefault, []);
    ListedAppend([], AddAll(def.listDefault), LayerTokens(cs));
    assert [] + def.listDefault == def.listDefault;
    for i := 0 to |cs|
      invariant Listed(out, LayerTokens(cs[i..])) == Listed([], Tokens(def, cs))
    {
      var items := if cs[i].value.List? then cs[i].value.items else [];
      assert cs[i..][1..] == cs[i + 1..];
      assert LayerTokens(cs[i..]) == TokensOf(items) + LayerTokens(cs[i + 1..]);
      ListedAppend(out, TokensOf(items), LayerTokens(cs[i + 1..]));
      out := ApplyItems(out, items);
    }
  }

  // ----- Set union

  /** Drops an element equal to the one kept before it. */
  function Deduped(list: seq<string>): seq<string> {
    if |list| <= 1 then list
    else
      var n := |list| - 1;
      Deduped(list[..n]) + if list[n] == list[n - 1] then [] else [list[n]]
  }

  /** The order strings sort in. */
  ghost predicate IsTotalOrder(le: (string, string) -> bool) {
    TotalPreorder(le) && forall x, y :: le(x, y) && le(y, x) ==> x == y
  }

  lemma {:induction false} DedupedIsStrict(list: seq<string>, le: (string, string) -> bool)
    requires IsTotalOrder(le) && SortedBy(list, le)
    ensures forall x :: x in Deduped(list) <==> x in list
    ensures forall i, j :: 0 <= i < j < |Deduped(list)| ==>
              le(Deduped(list)[i], Deduped(list)[j]) && Deduped(list)[i] != Deduped(list)[j]
    decreases |list|
  {
    if |list| > 1 {
      var n := |list| - 1;
      DedupedIsStrict(list[..n], le);
      assert list == list[..n] + [list[n]];
      assert list[n - 1] in list[..n];
      if list[n] != list[n - 1] {
        var d := Deduped(list[..n]);
        forall i | 0 <= i < |d|
          ensures le(d[i], list[n]) && d[i] != list[n]
        {
          assert d[i] in list[..n];
          var k :| 0 <= k < n && list[k] == d[i];
          assert le(list[k], list[n]) && le(list[n - 1], list[n]);
          assert k < n - 1 ==> le(list[k], list[n - 1]);
        }
      }
    }
  }

  function Union(list: seq<string>, le: (string, string) -> bool): seq<string> {
    Deduped(Sort(list, le))
  }

  // ----- Tables

  /** A later table over an earlier one: tables merge key by key, anything else replaces. */
  function DeepMerge(into: Value, from: Value): Value
    decreases from
  {
    if into.Table? && from.Table? then
      Table(map k | k in into.m.Keys + from.m.Keys ::
        if k !in from.m then into.m[k]
        else if k in into.m then DeepMerge(into.m[k], from.m[k])
        else from.m[k])
    else from
  }

  function Lookup(v: Value, path: seq<string>): Option<Value>
    decreases |path|
  {
    if path == [] then Some(v)
    else if v.Table? && path[0] in v.m then Lookup(v.m[path[0]], path[1..])
    else None
  }

  /** Walking `path`, a table lacks the next key: the value says nothing about it. */
  predicate Silent(v: Value, path: seq<string>)
    decreases |path|
  {
    path != [] && v.Table? && (path[0] in v.m ==> Silent(v.m[path[0]], path[1..]))
  }

  /** A plain value a later layer writes is the effective one at its path. */
  lemma {:induction false} LaterLeafWins(a: Value, b: Value, path: seq<string>)
    requires Lookup(b, path).Some? && !Lookup(b, path).value.Table?
    ensures Lookup(DeepMerge(a, b), path) == Lookup(b, path)
    decreases |path|
  {
    if path != [] && a.Table? && path[0] in a.m {
      LaterLeafWins(a.m[path[0]], b.m[path[0]], path[1..]);
    }
  }

  lemma {:induction false} SilentHasNothing(v: Value, path: seq<string>)
    requires Silent(v, path)
    ensures Lookup(v, path) == None
    decreases |path|
  {
    if path[0] in v.m {
      SilentHasNothing(v.m[path[0]], path[1..]);
    }
  }

  /** Where the later layer is silent the earlier value stays. */
  lemma {:induction false} EarlierStaysWhereSilent(a: Value, b: Value, path: seq<string>)
    requires a.Table? && Silent(b, path)
    ensures Lookup(DeepMerge(a, b), path) == Lookup(a, path)
    decreases |path|
  {
    if path[0] in b.m {
      SilentHasNothing(b.m[path[0]], path[1..]);
      if path[0] in a.m && a.m[path[0]].Table? {
        EarlierStaysWhereSilent(a.m[path[0]], b.m[path[0]], path[1..]);
      }
    }
  }

  /** Folding is not associative: a plain value between two tables hides the first from the last. */
  lemma DeepMergeNotAssociative()
    ensures var a, b, c := Table(map["k" := Table(map["x" := Int(1)])]), Table(map["k" := Int(2)]),
                           Table(map["k" := Table(map["y" := Int(3)])]);
            DeepMerge(DeepMerge(a, b), c) != DeepMerge(a, DeepMerge(b, c))
  {
    var a, b, c := Table(map["k" := Table(map["x" := Int(1)])]), Table(map["k" := Int(2)]),
                   Table(map["k" := Table(map["y" := Int(3)])]);
    var left, right := DeepMerge(DeepMerge(a, b), c), DeepMerge(a, DeepMerge(b, c));
    assert DeepMerge(a, b).m["k"] == Int(2) && DeepMerge(b, c).m["k"] == c.m["k"];
    assert left.m["k"] == c.m["k"];
    assert right.m["k"] == DeepMerge(a.m["k"], c.m["k"]);
    assert "x" !in left.m["k"].m && "x" in right.m["k"].m;
  }

  /** `from` already says something about every key of `into`, all the way down. */
  predicate Absorbs(into: Value, from: Value)
    decreases from
  {
    into.Table? && from.Table? ==>
      forall k :: k in into.m ==> k in from.m && Absorbs(into.m[k], from.m[k])
  }

  lemma {:induction false} AbsorbedAddsNothing(a: Value, c: Value)
    ensures DeepMerge(a, c) == c <==> Absorbs(a, c)
    decreases c
  {
    if a.Table? && c.Table? {
      var d := DeepMerge(a, c);
      forall k | k in a.m && k in c.m
        ensures d.m[k] == c.m[k] <==> Absorbs(a.m[k], c.m[k])
      {
        AbsorbedAddsNothing(a.m[k], c.m[k]);
      }
      if Absorbs(a, c) {
        assert d.m == c.m;
      }
      if d == c {
        forall k | k in a.m
          ensures k in c.m && Absorbs(a.m[k], c.m[k])
        {
          assert k in d.m;
        }
      }
    }
  }

  /** Somewhere a plain value of `b` stands between a table of `a` and a table of `c` that lacks some of it. */
  predicate Hides(a: Value, b: Value, c: Value)
    decreases c
  {
    && a.Table? && c.Table?
    && if b.Table? then exists k :: k in a.m && k in b.m && k in c.m && Hides(a.m[k], b.m[k], c.m[k])
       else !Absorbs(a, c)
  }

  lemma {:induction false} MergedAt(a: Value, b: Value, k: string)
    requires a.Table? && b.Table?
    ensures DeepMerge(a, b).Table?
    ensures k in DeepMerge(a, b).m <==> k in a.m || k in b.m
    ensures k in a.m && k in b.m ==> DeepMerge(a, b).m[k] == DeepMerge(a.m[k], b.m[k])
    ensures k in a.m && k !in b.m ==> DeepMerge(a, b).m[k] == a.m[k]
    ensures k !in a.m && k in b.m ==> DeepMerge(a, b).m[k] == b.m[k]
  {
  }

  lemma {:induction false} AssociativeAt(a: Value, b: Value, c: Value, k: string)
    requires a.Table? && b.Table? && c.Table?
    ensures var l, r := DeepMerge(DeepMerge(a, b), c), DeepMerge(a, DeepMerge(b, c));
            && l.Table? && r.Table? && (k in l.m <==> k in r.m)
            && (k in l.m ==>
                  (l.m[k] == r.m[k] <==>
                     !(k in a.m && k in b.m && k in c.m) ||
                     DeepMerge(DeepMerge(a.m[k], b.m[k]), c.m[k]) == DeepMerge(a.m[k], DeepMerge(b.m[k], c.m[k]))))
  {
    var ab, bc := DeepMerge(a, b), DeepMerge(b, c);
    MergedAt(a, b, k);
    MergedAt(b, c, k);
    MergedAt(ab, c, k);
    MergedAt(a, bc, k);
  }

  /** Three layers fold to the same value from either side exactly when nothing is hidden that way. */
  lemma {:induction false} AssociativeIffNothingHidden(a: Value, b: Value, c: Value)
    ensures DeepMerge(DeepMerge(a, b), c) == DeepMerge(a, DeepMerge(b, c)) <==> !Hides(a, b, c)
    decreases c
  {
    if a.Table? && b.Table? && c.Table? {
      var l, r := DeepMerge(DeepMerge(a, b), c), DeepMerge(a, DeepMerge(b, c));
      forall k
        ensures k in l.m <==> k in r.m
        ensures k in l.m ==>
                  (l.m[k] == r.m[k] <==> !(k in a.m && k in b.m && k in c.m && Hides(a.m[k], b.m[k], c.m[k])))
      {
        AssociativeAt(a, b, c, k);
        if k in a.m && k in b.m && k in c.m {
          AssociativeIffNothingHidden(a.m[k], b.m[k], c.m[k]);
        }
      }
      if !Hides(a, b, c) {
        assert l.m == r.m;
      } else {
        var k :| k in a.m && k in b.m && k in c.m && Hides(a.m[k], b.m[k], c.m[k]);
        AssociativeAt(a, b, c, k);
        assert k in l.m;
      }
    } else if a.Table? && c.Table? {
      AbsorbedAddsNothing(a, c);
    }
  }

  function DeepFold(acc: Value, cs: seq<Contribution>): Value
    decreases |cs|
  {
    if cs == [] then acc
    else DeepFold(if cs[0].value.Table? then DeepMerge(acc, cs[0].value) else acc, cs[1..])
  }

  /** `v` decides what is at `path`: a plain value, or a plain value on the way there. */
  predicate Settles(v: Value, path: seq<string>) {
    !Silent(v, path) && (Lookup(v, path).Some? ==> !Lookup(v, path).value.Table?)
  }

  lemma {:induction false} LaterSettles(a: Value, b: Value, path: seq<string>)
    requires Settles(b, path)
    ensures Lookup(DeepMerge(a, b), path) == Lookup(b, path)
    decreases |path|
  {
    if path != [] && b.Table? && a.Table? && path[0] in a.m {
      LaterSettles(a.m[path[0]], b.m[path[0]], path[1..]);
    }
  }

  /** Every table of `cs` is silent on `path`. */
  ghost predicate AllSilent(cs: seq<Contribution>, path: seq<string>) {
    forall i :: 0 <= i < |cs| && cs[i].value.Table? ==> Silent(cs[i].value, path)
  }

  lemma {:induction false} SilentFold(acc: Value, cs: seq<Contribution>, path: seq<string>)
    requires acc.Table? && AllSilent(cs, path)
    ensures Lookup(DeepFold(acc, cs), path) == Lookup(acc, path)
    decreases |cs|
  {
    if cs != [] {
      if cs[0].value.Table? {
        EarlierStaysWhereSilent(acc, cs[0].value, path);
        SilentFold(DeepMerge(acc, cs[0].value), cs[1..], path);
      } else {
        SilentFold(acc, cs[1..], path);
      }
    }
  }

  lemma {:induction false} FoldSettles(acc: Value, cs: seq<Contribution>, path: seq<string>, j: nat)
    requires acc.Table? && j < |cs| && cs[j].value.Table? && Settles(cs[j].value, path)
    requires AllSilent(cs[j + 1..], path)
    ensures Lookup(DeepFold(acc, cs), path) == Lookup(cs[j].value, path)
    decreases |cs|
  {
    var merged := if cs[0].value.Table? then DeepMerge(acc, cs[0].value) else acc;
    if j == 0 {
      LaterSettles(acc, cs[0].value, path);
      SilentFold(merged, cs[1..], path);
    } else {
      assert cs[1..][j..] == cs[j + 1..];
      FoldSettles(merged, cs[1..], path, j - 1);
    }
  }

  // ----- The effective value

  function FirstMachine(cs: seq<Contribution>): Option<Value> {
    if cs == [] then None
    else if cs[0].kind == Machine then Some(cs[0].value)
    else FirstMachine(cs[1..])
  }

  predicate Pinnable(def: KeyDef) {
    def.locked || def.scope == MachineScope
  }

  function Merged(def: KeyDef, cs: seq<Contribution>, le: (string, string) -> bool): Option<Value> {
    if cs == [] then None
    else match def.merge
      case Replace =>
        if Pinnable(def) && FirstMachine(cs).Some? then FirstMachine(cs) else Some(cs[|cs| - 1].value)
      case Append => Some(List(Listed([], Tokens(def, cs))))
      case SetUnion => Some(List(Union(Listed([], Tokens(def, cs)), le)))
      case Deep => Some(DeepFold(Table(map[]), cs))
  }

  function Effective(def: KeyDef, layers: seq<Layer>, le: (string, string) -> bool): Option<Value> {
    Merged(def, Contributions(def, layers), le)
  }

  // ----- What a workspace can and cannot do

  function NoWorkspace(layers: seq<Layer>): seq<Layer> {
    if layers == [] then []
    else (if layers[0].kind == Workspace then [] else [layers[0]]) + NoWorkspace(layers[1..])
  }

  lemma {:induction false} ContributionsCons(def: KeyDef, layer: Layer, rest: seq<Layer>)
    ensures Contributions(def, [layer] + rest) == FromLayer(def, layer) + Contributions(def, rest)
  {
    assert ([layer] + rest)[1..] == rest;
  }

  lemma {:induction false} WorkspaceContributesNothing(def: KeyDef, layers: seq<Layer>)
    requires !Admitted(def, Workspace)
    ensures Contributions(def, layers) == Contributions(def, NoWorkspace(layers))
  {
    if layers != [] {
      var l, rest := layers[0], layers[1..];
      WorkspaceContributesNothing(def, rest);
      assert layers == [l] + rest;
      ContributionsCons(def, l, rest);
      if l.kind == Workspace {
        assert FromLayer(def, l) == [];
        assert NoWorkspace(layers) == NoWorkspace(rest);
      } else {
        assert NoWorkspace(layers) == [l] + NoWorkspace(rest);
        ContributionsCons(def, l, NoWorkspace(rest));
      }
    }
  }

  /** Whatever workspace files hold, a locked key, or one whose scope leaves the workspace out, has the
      value the other layers alone give it; and the gate keeps out no other key. */
  lemma {:induction false} WorkspaceCannotTouch(def: KeyDef, layers: seq<Layer>, le: (string, string) -> bool)
    ensures Admitted(def, Workspace) <==> !def.locked && def.scope == WorkspaceScope
    ensures !Admitted(def, Workspace) ==>
              Effective(def, layers, le) == Effective(def, NoWorkspace(layers), le)
  {
    if !Admitted(def, Workspace) {
      WorkspaceContributesNothing(def, layers);
    }
  }

  // ----- What a `replace` key holds

  /** Who may write a key: the machine always, the user unless the key is the machine's, a workspace only a
      key that is open to it and not locked. */
  predicate MayWrite(def: KeyDef, kind: LayerKind) {
    || kind == Machine
    || (kind == User && def.scope != MachineScope)
    || (kind == Workspace && def.scope == WorkspaceScope && !def.locked)
  }

  lemma {:induction false} GateIsMayWrite(def: KeyDef, kind: LayerKind)
    ensures Admitted(def, kind) <==> MayWrite(def, kind)
  {
  }

  predicate Writes(layer: Layer, key: string) {
    exists j :: 0 <= j < |layer.entries| && layer.entries[j].key == key
  }

  lemma {:induction false} SilentLayer(key: string, kind: LayerKind, entries: seq<Entry>)
    requires forall j :: 0 <= j < |entries| ==> entries[j].key != key
    ensures Mentions(key, kind, entries) == []
  {
    if entries != [] {
      SilentLayer(key, kind, entries[1..]);
    }
  }

  lemma {:induction false} LastMentionOfLayer(key: string, kind: LayerKind, entries: seq<Entry>, j: nat)
    requires j < |entries| && entries[j].key == key
    requires forall i :: j < i < |entries| ==> entries[i].key != key
    ensures var cs := Mentions(key, kind, entries);
            cs != [] && cs[|cs| - 1] == Contribution(entries[j].value, kind)
  {
    if j > 0 {
      LastMentionOfLayer(key, kind, entries[1..], j - 1);
    } else {
      SilentLayer(key, kind, entries[1..]);
    }
  }

  lemma {:induction false} SilentLayers(def: KeyDef, layers: seq<Layer>)
    requires forall i :: 0 <= i < |layers| && MayWrite(def, layers[i].kind) ==> !Writes(layers[i], def.key)
    ensures Contributions(def, layers) == []
  {
    if layers != [] {
      GateIsMayWrite(def, layers[0].kind);
      if MayWrite(def, layers[0].kind) {
        assert !Writes(layers[0], def.key);
        SilentLayer(def.key, layers[0].kind, layers[0].entries);
      }
      SilentLayers(def, layers[1..]);
    }
  }

  /** Entry `j` of layer `i` is the last one, over all layers that may, to write the key. */
  ghost predicate LastWrite(def: KeyDef, layers: seq<Layer>, i: nat, j: nat) {
    && i < |layers| && j < |layers[i].entries|
    && MayWrite(def, layers[i].kind) && layers[i].entries[j].key == def.key
    && (forall k :: j < k < |layers[i].entries| ==> layers[i].entries[k].key != def.key)
    && (forall k :: i < k < |layers| && MayWrite(def, layers[k].kind) ==> !Writes(layers[k], def.key))
  }

  lemma {:induction false} LastContribution(def: KeyDef, layers: seq<Layer>, i: nat, j: nat)
    requires LastWrite(def, layers, i, j)
    ensures var cs := Contributions(def, layers);
            cs != [] && cs[|cs| - 1] == Contribution(layers[i].entries[j].value, layers[i].kind)
    decreases |layers|
  {
    var rest := Contributions(def, layers[1..]);
    if i > 0 {
      LastContribution(def, layers[1..], i - 1, j);
    } else {
      GateIsMayWrite(def, layers[0].kind);
      LastMentionOfLayer(def.key, layers[0].kind, layers[0].entries, j);
      SilentLayers(def, layers[1..]);
    }
  }

  /** A `replace` key that no machine value pins has the value of its last permitted write: a later layer
      overrides an earlier one, and a later entry an earlier one of its layer. */
  lemma {:induction false} ReplaceKeyHolds(
      def: KeyDef, layers: seq<Layer>, le: (string, string) -> bool, i: nat, j: nat)
    requires def.merge == Replace && LastWrite(def, layers, i, j)
    requires def.locked || def.scope == MachineScope ==>
               forall k :: 0 <= k < |layers| && layers[k].kind == Machine ==> !Writes(layers[k], def.key)
    ensures Effective(def, layers, le) == Some(layers[i].entries[j].value)
  {
    LastContribution(def, layers, i, j);
    if def.locked || def.scope == MachineScope {
      NoMachineValue(def.key, layers);
      FirstMachineIsMachineValue(def, layers);
    }
  }

  lemma {:induction false} NothingWritten(key: string, entries: seq<Entry>)
    requires forall j :: 0 <= j < |entries| ==> entries[j].key != key
    ensures FirstWritten(key, entries) == None
  {
    if entries != [] {
      NothingWritten(key, entries[1..]);
    }
  }

  lemma {:induction false} NoMachineValue(key: string, layers: seq<Layer>)
    requires forall k :: 0 <= k < |layers| && layers[k].kind == Machine ==> !Writes(layers[k], key)
    ensures MachineValue(key, layers) == None
  {
    if layers != [] {
      if layers[0].kind == Machine {
        assert !Writes(layers[0], key);
        NothingWritten(key, layers[0].entries);
      }
      NoMachineValue(key, layers[1..]);
    }
  }

  /** A key of any kind has no value exactly when no layer that may write it does. */
  lemma {:induction false} UnsetIffUnwritten(def: KeyDef, layers: seq<Layer>, le: (string, string) -> bool)
    ensures Effective(def, layers, le) == None <==>
              forall k :: 0 <= k < |layers| && MayWrite(def, layers[k].kind) ==> !Writes(layers[k], def.key)
  {
    if forall k :: 0 <= k < |layers| && MayWrite(def, layers[k].kind) ==> !Writes(layers[k], def.key) {
      SilentLayers(def, layers);
    } else {
      var k :| 0 <= k < |layers| && MayWrite(def, layers[k].kind) && Writes(layers[k], def.key);
      WrittenContributes(def, layers, k);
    }
  }

  lemma {:induction false} WrittenContributes(def: KeyDef, layers: seq<Layer>, k: nat)
    requires k < |layers| && MayWrite(def, layers[k].kind) && Writes(layers[k], def.key)
    ensures Contributions(def, layers) != []
    decreases |layers|
  {
    if k > 0 {
      WrittenContributes(def, layers[1..], k - 1);
    } else {
      GateIsMayWrite(def, layers[0].kind);
      var j :| 0 <= j < |layers[0].entries| && layers[0].entries[j].key == def.key;
      WrittenMentioned(def.key, layers[0].kind, layers[0].entries, j);
    }
  }

  lemma {:induction false} WrittenMentioned(key: string, kind: LayerKind, entries: seq<Entry>, j: nat)
    requires j < |entries| && entries[j].key == key
    ensures Mentions(key, kind, entries) != []
  {
    if j > 0 {
      WrittenMentioned(key, kind, entries[1..], j - 1);
    }
  }

  // ----- What pins it

  /** The first value a machine layer writes for a key. */
  function MachineValue(key: string, layers: seq<Layer>): Option<Value> {
    if layers == [] then None
    else if layers[0].kind == Machine && FirstWritten(key, layers[0].entries).Some? then
      FirstWritten(key, layers[0].entries)
    else MachineValue(key, layers[1..])
  }

  function FirstWritten(key: string, entries: seq<Entry>): Option<Value> {
    if entries == [] then None
    else if entries[0].key == key then Some(entries[0].value)
    else FirstWritten(key, entries[1..])
  }

  lemma {:induction false} FirstMachineAppend(a: seq<Contribution>, b: seq<Contribution>)
    ensures FirstMachine(a + b) == if FirstMachine(a).Some? then FirstMachine(a) else FirstMachine(b)
  {
    if a == [] {
      assert a + b == b;
    } else {
      assert (a + b)[1..] == a[1..] + b;
      FirstMachineAppend(a[1..], b);
    }
  }

  lemma {:induction false} FirstMachineOfLayer(key: string, kind: LayerKind, entries: seq<Entry>)
    ensures FirstMachine(Mentions(key, kind, entries))
         == if kind == Machine then FirstWritten(key, entries) else None
  {
    if entries != [] {
      FirstMachineOfLayer(key, kind, entries[1..]);
      var head := if entries[0].key == key then [Contribution(entries[0].value, kind)] else [];
      FirstMachineAppend(head, Mentions(key, kind, entries[1..]));
      assert head != [] ==> head[1..] == [];
    }
  }

  lemma {:induction false} FirstMachineIsMachineValue(def: KeyDef, layers: seq<Layer>)
    ensures FirstMachine(Contributions(def, layers)) == MachineValue(def.key, layers)
  {
    if layers != [] {
      FirstMachineIsMachineValue(def, layers[1..]);
      FirstMachineAppend(FromLayer(def, layers[0]), Contributions(def, layers[1..]));
      FirstMachineOfLayer(def.key, layers[0].kind, layers[0].entries);
    }
  }

  /** A machine value of a locked or machine-scoped `replace` key is the effective one, above anything the
      user or the workspace writes. */
  lemma {:induction false} MachineValuePins(def: KeyDef, layers: seq<Layer>, le: (string, string) -> bool)
    requires def.merge == Replace && (def.locked || def.scope == MachineScope)
    requires MachineValue(def.key, layers).Some?
    ensures Effective(def, layers, le) == MachineValue(def.key, layers)
  {
    FirstMachineIsMachineValue(def, layers);
  }

  lemma {:induction false} FirstWrittenAt(key: string, entries: seq<Entry>, j: nat)
    requires j < |entries| && entries[j].key == key && forall k :: 0 <= k < j ==> entries[k].key != key
    ensures FirstWritten(key, entries) == Some(entries[j].value)
  {
    if j > 0 {
      FirstWrittenAt(key, entries[1..], j - 1);
    }
  }

  /** The machine value is the first one: of the first machine layer that writes the key, its first entry
      that does. */
  lemma {:induction false} MachineValueIsFirst(key: string, layers: seq<Layer>, i: nat, j: nat)
    requires i < |layers| && layers[i].kind == Machine
    requires j < |layers[i].entries| && layers[i].entries[j].key == key
    requires forall k :: 0 <= k < j ==> layers[i].entries[k].key != key
    requires forall k :: 0 <= k < i && layers[k].kind == Machine ==> !Writes(layers[k], key)
    ensures MachineValue(key, layers) == Some(layers[i].entries[j].value)
    decreases |layers|
  {
    if i > 0 {
      if layers[0].kind == Machine {
        assert !Writes(layers[0], key);
        NothingWritten(key, layers[0].entries);
      }
      MachineValueIsFirst(key, layers[1..], i - 1, j);
    } else {
      FirstWrittenAt(key, layers[0].entries, j);
    }
  }

  // ----- What a list key holds

  predicate Lasts(t: Token, later: seq<Token>) {
    t.Add? && Remove(t.item) !in later
  }

  /** The additions no later removal takes out, in the order they were made. */
  function Lasting(tokens: seq<Token>): seq<string> {
    if tokens == [] then []
    else (if Lasts(tokens[0], tokens[1..]) then [tokens[0].item] else []) + Lasting(tokens[1..])
  }

  lemma {:induction false} LastingCons(t: Token, rest: seq<Token>)
    ensures Lasting([t] + rest) == (if Lasts(t, rest) then [t.item] else []) + Lasting(rest)
  {
    assert ([t] + rest)[1..] == rest;
  }

  lemma {:induction false} LastsUnless(t: Token, later: seq<Token>, x: string)
    ensures Lasts(t, later + [Remove(x)]) <==> Lasts(t, later) && t.item != x
  {
    var more := later + [Remove(x)];
    assert more[|later|] == Remove(x);
    assert forall r :: r in more <==> r in later || r == Remove(x);
  }

  lemma {:induction false} WithoutAppend(a: seq<string>, b: seq<string>, x: string)
    ensures Without(a + b, x) == Without(a, x) + Without(b, x)
    decreases |b|
  {
    if b == [] {
      assert a + b == a;
    } else {
      var n := |b| - 1;
      assert (a + b)[..|a + b| - 1] == a + b[..n];
      WithoutAppend(a, b[..n], x);
    }
  }

  lemma {:induction false} WithoutOne(y: string, x: string)
    ensures Without([y], x) == if y == x then [] else [y]
  {
    assert [y][..0] == [];
  }

  lemma {:induction false} LastingAfterAdd(tokens: seq<Token>, x: string)
    ensures Lasting(tokens + [Add(x)]) == Lasting(tokens) + [x]
  {
    if tokens == [] {
      LastingCons(Add(x), []);
      assert tokens + [Add(x)] == [Add(x)] + [];
    } else {
      var t, rest := tokens[0], tokens[1..];
      LastingAfterAdd(rest, x);
      LastingCons(t, rest);
      LastingCons(t, rest + [Add(x)]);
      assert Lasts(t, rest + [Add(x)]) == Lasts(t, rest);
      assert tokens + [Add(x)] == [t] + (rest + [Add(x)]) && tokens == [t] + rest;
    }
  }

  lemma {:induction false} LastingAfterRemove(tokens: seq<Token>, x: string)
    ensures Lasting(tokens + [Remove(x)]) == Without(Lasting(tokens), x)
  {
    if tokens == [] {
      LastingCons(Remove(x), []);
      assert tokens + [Remove(x)] == [Remove(x)] + [];
    } else {
      var t, rest := tokens[0], tokens[1..];
      LastingAfterRemove(rest, x);
      RemoveStep(t, rest, x);
      assert tokens + [Remove(x)] == [t] + (rest + [Remove(x)]) && tokens == [t] + rest;
    }
  }

  lemma {:induction false} RemoveStep(t: Token, rest: seq<Token>, x: string)
    requires Lasting(rest + [Remove(x)]) == Without(Lasting(rest), x)
    ensures Lasting([t] + (rest + [Remove(x)])) == Without(Lasting([t] + rest), x)
  {
    LastingCons(t, rest);
    LastingCons(t, rest + [Remove(x)]);
    LastsUnless(t, rest, x);
    if Lasts(t, rest) {
      WithoutAppend([t.item], Lasting(rest), x);
      WithoutOne(t.item, x);
    } else {
      assert [] + Lasting(rest) == Lasting(rest);
    }
  }

  /** The list the loops build is exactly those additions, repeats and order included. */
  lemma {:induction false} ListedIsLasting(tokens: seq<Token>)
    ensures Listed([], tokens) == Lasting(tokens)
    decreases |tokens|
  {
    if tokens != [] {
      var n := |tokens| - 1;
      ListedLast([], tokens);
      ListedIsLasting(tokens[..n]);
      assert tokens == tokens[..n] + [tokens[n]];
      match tokens[n]
      case Add(x) => LastingAfterAdd(tokens[..n], x);
      case Remove(x) => LastingAfterRemove(tokens[..n], x);
    }
  }

  /** An item mentions `x`: it is `x` itself, put in, or `!x`. */
  predicate Mentioning(item: string, x: string) {
    item == ['!'] + x || (item == x && (x == [] || x[0] != '!'))
  }

  lemma {:induction false} MentioningIs(item: string, x: string)
    ensures TokenOf(item).item == x <==> Mentioning(item, x)
    ensures Mentioning(item, x) ==> (TokenOf(item).Add? <==> item != ['!'] + x)
  {
    if item != [] && item[0] == '!' {
      assert item == ['!'] + item[1..];
      assert item == ['!'] + x ==> item[1..] == x;
    }
  }

  lemma {:induction false} LastMentionAppend(a: seq<Token>, b: seq<Token>, x: string)
    ensures LastMention(a + b, x) == if LastMention(b, x).Some? then LastMention(b, x) else LastMention(a, x)
    decreases |b|
  {
    if b == [] {
      assert a + b == a;
    } else {
      assert (a + b)[..|a + b| - 1] == a + b[..|b| - 1];
      LastMentionAppend(a, b[..|b| - 1], x);
    }
  }

  lemma {:induction false} UnmentionedIn(items: seq<string>, x: string)
    requires forall t :: 0 <= t < |items| ==> !Mentioning(items[t], x)
    ensures LastMention(TokensOf(items), x) == None
  {
    if items != [] {
      UnmentionedIn(items[1..], x);
      MentioningIs(items[0], x);
      LastMentionAppend([TokenOf(items[0])], TokensOf(items[1..]), x);
      assert [TokenOf(items[0])][..0] == [];
    }
  }

  lemma {:induction false} LastMentionedIn(items: seq<string>, x: string, t: nat)
    requires t < |items| && Mentioning(items[t], x)
    requires forall u :: t < u < |items| ==> !Mentioning(items[u], x)
    ensures LastMention(TokensOf(items), x) == Some(items[t] != ['!'] + x)
  {
    LastMentionAppend([TokenOf(items[0])], TokensOf(items[1..]), x);
    if t > 0 {
      LastMentionedIn(items[1..], x, t - 1);
    } else {
      UnmentionedIn(items[1..], x);
      MentioningIs(items[0], x);
    }
  }

  /** No list among the contributions mentions `x`. */
  ghost predicate NoneMention(cs: seq<Contribution>, x: string) {
    forall k, t :: 0 <= k < |cs| && cs[k].value.List? && 0 <= t < |cs[k].value.items| ==>
      !Mentioning(cs[k].value.items[t], x)
  }

  lemma {:induction false} NoLayerMentions(cs: seq<Contribution>, x: string)
    requires NoneMention(cs, x)
    ensures LastMention(LayerTokens(cs), x) == None
  {
    if cs != [] {
      NoLayerMentions(cs[1..], x);
      if cs[0].value.List? {
        UnmentionedIn(cs[0].value.items, x);
        LastMentionAppend(TokensOf(cs[0].value.items), LayerTokens(cs[1..]), x);
      } else {
        assert [] + LayerTokens(cs[1..]) == LayerTokens(cs[1..]);
      }
    }
  }

  lemma {:induction false} LastLayerMention(cs: seq<Contribution>, x: string, k: nat, t: nat)
    requires k < |cs| && cs[k].value.List? && t < |cs[k].value.items| && Mentioning(cs[k].value.items[t], x)
    requires forall u :: t < u < |cs[k].value.items| ==> !Mentioning(cs[k].value.items[u], x)
    requires NoneMention(cs[k + 1..], x)
    ensures LastMention(LayerTokens(cs), x) == Some(cs[k].value.items[t] != ['!'] + x)
    decreases |cs|
  {
    var head := if cs[0].value.List? then TokensOf(cs[0].value.items) else [];
    LastMentionAppend(head, LayerTokens(cs[1..]), x);
    if k > 0 {
      assert cs[1..][k..] == cs[k + 1..];
      LastLayerMention(cs[1..], x, k - 1, t);
    } else {
      NoLayerMentions(cs[1..], x);
      LastMentionedIn(cs[0].value.items, x, t);
    }
  }

  /** In a list key's contributions the last item that is `x` or `!x` decides whether `x` is listed... */
  lemma {:induction false} LastItemDecides(def: KeyDef, cs: seq<Contribution>, x: string, k: nat, t: nat)
    requires k < |cs| && cs[k].value.List? && t < |cs[k].value.items| && Mentioning(cs[k].value.items[t], x)
    requires forall u :: t < u < |cs[k].value.items| ==> !Mentioning(cs[k].value.items[u], x)
    requires NoneMention(cs[k + 1..], x)
    ensures x in Listed([], Tokens(def, cs)) <==> cs[k].value.items[t] != ['!'] + x
  {
    LastLayerMention(cs, x, k, t);
    LastMentionAppend(AddAll(def.listDefault), LayerTokens(cs), x);
    ListedIffLastAdds(Tokens(def, cs), x);
  }

  lemma {:induction false} DefaultMention(items: seq<string>, x: string)
    ensures LastMention(AddAll(items), x) == if x in items then Some(true) else None
  {
    if items != [] {
      DefaultMention(items[1..], x);
      LastMentionAppend([Add(items[0])], AddAll(items[1..]), x);
      assert [Add(items[0])][..0] == [];
    }
  }

  /** ... and where no contribution has one, the default does. */
  lemma {:induction false} DefaultDecides(def: KeyDef, cs: seq<Contribution>, x: string)
    requires NoneMention(cs, x)
    ensures x in Listed([], Tokens(def, cs)) <==> x in def.listDefault
  {
    NoLayerMentions(cs, x);
    LastMentionAppend(AddAll(def.listDefault), LayerTokens(cs), x);
    DefaultMention(def.listDefault, x);
    ListedIffLastAdds(Tokens(def, cs), x);
  }

  /** An `append` or `set-union` key holds an item exactly when its last mention adds it; a `set-union` is
      in order without repeats. */
  lemma {:induction false} ListKeyHolds(def: KeyDef, layers: seq<Layer>, le: (string, string) -> bool, x: string)
    requires IsTotalOrder(le) && (def.merge == Append || def.merge == SetUnion)
    requires Contributions(def, layers) != []
    ensures var v, cs := Effective(def, layers, le), Contributions(def, layers);
            && v.Some? && v.value.List?
            && (x in v.value.items <==> LastMention(Tokens(def, cs), x) == Some(true))
            && (def.merge == Append ==> v.value.items == Lasting(Tokens(def, cs)))
            && (def.merge == SetUnion ==> forall i, j :: 0 <= i < j < |v.value.items| ==>
                  le(v.value.items[i], v.value.items[j]) && v.value.items[i] != v.value.items[j])
  {
    var cs := Contributions(def, layers);
    var list := Listed([], Tokens(def, cs));
    ListedIffLastAdds(Tokens(def, cs), x);
    ListedIsLasting(Tokens(def, cs));
    if def.merge == SetUnion {
      SortSorted(list, le);
      SortMembers(list, le);
      DedupedIsStrict(Sort(list, le), le);
    }
  }

  /** What a `deep` key holds at a path is decided by the last table that is not silent on it, when that
      table has a plain value there or on the way; and nothing is there when every table is silent. */
  lemma {:induction false} DeepKeyHolds(
      def: KeyDef, layers: seq<Layer>, le: (string, string) -> bool, path: seq<string>, j: nat)
    requires def.merge == Deep && j < |Contributions(def, layers)|
    ensures var v, cs := Effective(def, layers, le), Contributions(def, layers);
            && v.Some? && v.value.Table?
            && (cs[j].value.Table? && Settles(cs[j].value, path) && AllSilent(cs[j + 1..], path) ==>
                  Lookup(v.value, path) == Lookup(cs[j].value, path))
            && (AllSilent(cs, path) && path != [] ==> Lookup(v.value, path) == None)
  {
    var cs, none := Contributions(def, layers), Table(map[]);
    FoldIsTable(none, cs);
    if cs[j].value.Table? && Settles(cs[j].value, path) && AllSilent(cs[j + 1..], path) {
      FoldSettles(none, cs, path, j);
    }
    if AllSilent(cs, path) {
      SilentFold(none, cs, path);
    }
  }

  lemma {:induction false} FoldIsTable(acc: Value, cs: seq<Contribution>)
    requires acc.Table?
    ensures DeepFold(acc, cs).Table?
    decreases |cs|
  {
    if cs != [] {
      FoldIsTable(if cs[0].value.Table? then DeepMerge(acc, cs[0].value) else acc, cs[1..]);
    }
  }
}
