/** The behavior registry: behaviors registered by name, and the grouping of
    their names by the graph mode they belong to, which the editor turns into
    the host graph's interaction modes. */
module BehaviorManager {
  import opened Js

  /** A registered behavior. The registry reads only its `graphMode`. */
  datatype Behavior = Behavior(graphMode: Option<string>)

  datatype Manager = Manager(behaviors: map<string, Behavior>)

  /** The mode of a behavior that names none. */
  const DefaultMode := "default"

  /** Names grouped by mode: mode to (name to name). */
  type Modes = map<string, map<string, string>>

  /** The constructor: no behaviors. */
  const Empty := Manager(map[])

  /** `register(name, behavior)`: stores the behavior under its name,
      replacing any earlier one of that name. */
  function Register(m: Manager, name: string, b: Behavior): (r: Manager)
    ensures name in r.behaviors && r.behaviors[name] == b
    ensures r.behaviors.Keys == m.behaviors.Keys + {name}
    ensures forall k :: k in m.behaviors && k != name ==> r.behaviors[k] == m.behaviors[k]
  {
    Manager(m.behaviors[name := b])
  }

  /** `graphMode`, or `'default'` when the behavior leaves it undefined. */
  function ModeOf(b: Behavior): string {
    b.graphMode.GetOr(DefaultMode)
  }

  /** The modes of the registered behaviors. */
  function ModesOf(bs: map<string, Behavior>): set<string> {
    set n | n in bs :: ModeOf(bs[n])
  }

  /** The grouping as a whole: each mode of a registered behavior maps every
      name registered in that mode to itself. */
  function Grouping(bs: map<string, Behavior>): (r: Modes)
    ensures r.Keys == ModesOf(bs)
    ensures forall n :: n in bs ==> n in r[ModeOf(bs[n])]
  {
    map mode | mode in ModesOf(bs) :: map n | n in bs && ModeOf(bs[n]) == mode :: n
  }

  /** Every registered name is listed under its own mode, mapped to itself. */
  predicate ListsAll(bs: map<string, Behavior>, r: Modes) {
    forall n :: n in bs ==>
      ModeOf(bs[n]) in r && n in r[ModeOf(bs[n])] && r[ModeOf(bs[n])][n] == n
  }

  /** Every listed name is registered in the mode it is listed under, mapped
      to itself, and no mode is listed empty. */
  predicate ListsOnlyRegistered(bs: map<string, Behavior>, r: Modes) {
    && (forall mode, n :: mode in r && n in r[mode] ==> n in bs && ModeOf(bs[n]) == mode && r[mode][n] == n)
    && (forall mode :: mode in r ==> r[mode] != map[])
  }

  /** A grouping that lists every name under its mode and nothing else is
      the grouping. */
  lemma GroupingUnique(bs: map<string, Behavior>, r: Modes)
    requires ListsAll(bs, r) && ListsOnlyRegistered(bs, r)
    ensures r.Keys == ModesOf(bs) && r == Grouping(bs)
  {
    ListedModes(bs, r);
    var g := Grouping(bs);
    assert g.Keys == ModesOf(bs);
    forall mode | mode in r ensures r[mode] == g[mode] {
      ListedNames(bs, r, mode);
    }
  }

  /** The listed modes are exactly the modes in use. */
  lemma ListedModes(bs: map<string, Behavior>, r: Modes)
    requires ListsAll(bs, r) && ListsOnlyRegistered(bs, r)
    ensures r.Keys == ModesOf(bs)
  {
    forall mode | mode in r ensures mode in ModesOf(bs) {
      assert r[mode].Keys != {};
      var n :| n in r[mode];
      assert ModeOf(bs[n]) in ModesOf(bs);
    }
    forall mode | mode in ModesOf(bs) ensures mode in r {
      var n :| n in bs && ModeOf(bs[n]) == mode;
    }
  }

  /** The names listed under a mode are exactly those registered in it. */
  lemma ListedNames(bs: map<string, Behavior>, r: Modes, mode: string)
    requires ListsAll(bs, r) && ListsOnlyRegistered(bs, r)
    requires mode in r && mode in ModesOf(bs)
    ensures r[mode] == Grouping(bs)[mode]
  {
    forall n | n in bs && ModeOf(bs[n]) == mode ensures n in r[mode] && r[mode][n] == n {
    }
    forall n | n in r[mode] ensures n in bs && ModeOf(bs[n]) == mode {
    }
    NamesInMode(r[mode], bs, mode);
    GroupingAt(bs, mode);
  }

  /** A map that holds exactly the names registered in `mode`, each mapped
      to itself, is the grouping's entry for `mode`. */
  lemma NamesInMode(names: map<string, string>, bs: map<string, Behavior>, mode: string)
    requires forall n :: n in bs && ModeOf(bs[n]) == mode ==> n in names && names[n] == n
    requires forall n :: n in names ==> n in bs && ModeOf(bs[n]) == mode
    ensures names == map n | n in bs && ModeOf(bs[n]) == mode :: n
  {
  }

  lemma GroupingAt(bs: map<string, Behavior>, mode: string)
    requires mode in ModesOf(bs)
    ensures Grouping(bs)[mode] == map n | n in bs && ModeOf(bs[n]) == mode :: n
  {
  }

  /** `getRegisteredBehaviors()`, walking the registered names one at a time
      as the source's `forEach` does (the walk order does not matter). */
  method GetRegisteredBehaviors(m: Manager) returns (r: Modes)
    // the mode keys are exactly the modes of registered behaviors
    ensures r.Keys == ModesOf(m.behaviors)
    // every registered name is listed under its own mode, mapped to itself
    ensures forall n :: n in m.behaviors ==>
      ModeOf(m.behaviors[n]) in r && n in r[ModeOf(m.behaviors[n])] && r[ModeOf(m.behaviors[n])][n] == n
    // and nowhere else: each listed name is registered in that mode
    ensures forall mode, n :: mode in r && n in r[mode] ==>
      n in m.behaviors && ModeOf(m.behaviors[n]) == mode && r[mode][n] == n
    ensures r == Grouping(m.behaviors)
  {
    var bs := m.behaviors;
    r := map[];
    var rest := bs.Keys;
    while rest != {}
      invariant rest <= bs.Keys
      invariant forall n :: n in bs && n !in rest ==>
        ModeOf(bs[n]) in r && n in r[ModeOf(bs[n])] && r[ModeOf(bs[n])][n] == n
      invariant forall mode, n :: mode in r && n in r[mode] ==>
        n in bs && n !in rest && ModeOf(bs[n]) == mode && r[mode][n] == n
      invariant forall mode :: mode in r ==> r[mode] != map[]
      decreases rest
    {
      var name :| name in rest;
      var mode := ModeOf(bs[name]);
      if mode !in r {
        r := r[mode := map[]];
      }
      r := r[mode := r[mode][name := name]];
      rest := rest - {name};
    }
    GroupingUnique(bs, r);
  }

  /** A fresh registry groups nothing. */
  lemma EmptyGroupsNothing()
    ensures Grouping(Empty.behaviors) == map[]
  {
  }

  /** Each name is listed under exactly one mode. */
  lemma {:induction false} ExactlyOneMode(bs: map<string, Behavior>, n: string, mode: string)
    requires n in bs
    ensures mode in Grouping(bs) && n in Grouping(bs)[mode] <==> mode == ModeOf(bs[n])
  {
    if mode == ModeOf(bs[n]) {
      assert mode in ModesOf(bs);
    }
  }

  /** Re-registering a name moves it to the new behavior's mode and leaves
      every other name where it was. */
  lemma ReRegisterMoves(m: Manager, name: string, b: Behavior, other: string)
    requires other in m.behaviors && other != name
    ensures var g := Grouping(Register(m, name, b).behaviors);
      && ModeOf(b) in g && name in g[ModeOf(b)]
      && ModeOf(m.behaviors[other]) in g && other in g[ModeOf(m.behaviors[other])]
  {
    var bs := Register(m, name, b).behaviors;
    assert ModeOf(bs[name]) in ModesOf(bs);
    assert ModeOf(bs[other]) in ModesOf(bs);
  }

  /** The four behaviors registered when the behavior modules load:
      `drag-add-node` belongs to the add-node mode (whose name is defined
      outside this model), the other three to the default mode. */
  function Loaded(addNodeMode: string): Manager {
    var m := Register(Empty, "active-edge", Behavior(None));
    var m := Register(m, "drag-add-edge", Behavior(None));
    var m := Register(m, "drag-add-node", Behavior(Some(addNodeMode)));
    Register(m, "hover-anchor", Behavior(None))
  }

  lemma LoadedModes(addNodeMode: string)
    requires addNodeMode != DefaultMode
    ensures Grouping(Loaded(addNodeMode).behaviors) == map[
      DefaultMode := map["active-edge" := "active-edge", "drag-add-edge" := "drag-add-edge",
                         "hover-anchor" := "hover-anchor"],
      addNodeMode := map["drag-add-node" := "drag-add-node"]]
  {
    var bs := Loaded(addNodeMode).behaviors;
    assert bs == map["active-edge" := Behavior(None), "drag-add-edge" := Behavior(None),
                     "drag-add-node" := Behavior(Some(addNodeMode)), "hover-anchor" := Behavior(None)];
    var r := map[
      DefaultMode := map["active-edge" := "active-edge", "drag-add-edge" := "drag-add-edge",
                         "hover-anchor" := "hover-anchor"],
      addNodeMode := map["drag-add-node" := "drag-add-node"]];
    assert ListsAll(bs, r);
    assert ListsOnlyRegistered(bs, r);
    GroupingUnique(bs, r);
  }
}
