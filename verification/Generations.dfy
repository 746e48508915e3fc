/**
 Settings generations: one per settings object that was current, each with the components built from it and the
 newest components it may take over from earlier generations.
 */
module Generations {
  /** The identity of a settings object, and of a component instance. */
  type Token = nat

  type Instance = nat

  type Instances = map<string, Instance>

  class SettingsGeneration {
    const number: nat
    const settings: Token
    var components: Instances
    var inherited: Instances

    constructor (number: nat, settings: Token, inherited: Instances)
      ensures this.number == number && this.settings == settings
      ensures components == map[] && this.inherited == inherited
    {
      this.number, this.settings := number, settings;
      this.components, this.inherited := map[], inherited;
    }

    function Value(): Link
      reads this
    {
      Link(number, settings, components, inherited)
    }

    /** `component`: `made` is what the factory returns if it is called. */
    method Component(name: string, made: Instance) returns (value: Instance)
      modifies this
      ensures Value() == WithComponent(old(Value()), name, made)
      ensures name in components && value == components[name]
    {
      if name in components {
        return components[name];
      }
      components := components[name := made];
      inherited := inherited - {name};
      return made;
    }

    /** `successor_inheritance`. */
    function SuccessorInheritance(): Instances
      reads this
    {
      inherited + components
    }
  }

  // ---------------------------------------------------------------- the chain of generations

  datatype Link = Link(number: nat, settings: Token, components: Instances, inherited: Instances)

  /** The instance of each name from the latest of some generations that had built it. */
  function Newest(built: seq<Instances>): Instances {
    if built == [] then map[] else Newest(built[..|built| - 1]) + built[|built| - 1]
  }

  /** A component stays built. */
  predicate Built(before: Instances, after: Instances) {
    forall name <- before :: name in after && after[name] == before[name]
  }

  /**
   Every generation inherits, under each name it has not built itself, the newest instance that was built before
   it: `sealed[i]` is what generation `i` had built when its successor was created.
   */
  predicate GoodLink(links: seq<Link>, sealed: seq<Instances>, i: nat)
    requires i < |links| && |sealed| + 1 == |links|
  {
    && links[i].number == i + 1
    && links[i].inherited == Newest(sealed[..i]) - links[i].components.Keys
    && (i < |sealed| ==> Built(sealed[i], links[i].components) && links[i].settings != links[i + 1].settings)
  }

  predicate GoodChain(links: seq<Link>, sealed: seq<Instances>) {
    if links == [] then sealed == []
    else |sealed| + 1 == |links| && forall i: nat | i < |links| :: GoodLink(links, sealed, i)
  }

  /** A chain after the loader has returned a settings object that is not the newest generation's. */
  function Extended(links: seq<Link>, settings: Token): seq<Link> {
    if links == [] then [Link(1, settings, map[], map[])]
    else
      var last := links[|links| - 1];
      links + [Link(last.number + 1, settings, map[], last.inherited + last.components)]
  }

  function SealedBy(links: seq<Link>, sealed: seq<Instances>): seq<Instances> {
    if links == [] then [] else sealed + [links[|links| - 1].components]
  }

  lemma ExtendingKeepsChain(links: seq<Link>, sealed: seq<Instances>, settings: Token)
    requires GoodChain(links, sealed) && (links != [] ==> links[|links| - 1].settings != settings)
    ensures GoodChain(Extended(links, settings), SealedBy(links, sealed))
    ensures var added := Extended(links, settings)[|links|];
            added.number == |links| + 1 && added.inherited == Newest(SealedBy(links, sealed))
  {
    var longer, more := Extended(links, settings), SealedBy(links, sealed);
    if links != [] {
      var last := links[|links| - 1];
      assert GoodLink(links, sealed, |links| - 1) && sealed[..|sealed|] == sealed;
      assert more[..|sealed|] == sealed && more[..|more|] == more;
      assert last.inherited + last.components == Newest(more);
      forall i: nat | i < |longer|
        ensures GoodLink(longer, more, i)
      {
        if i < |links| {
          assert GoodLink(links, sealed, i) && more[..i] == sealed[..i];
        }
      }
    }
  }

  function WithComponent(link: Link, name: string, made: Instance): Link {
    if name in link.components then link
    else link.(components := link.components[name := made], inherited := link.inherited - {name})
  }

  lemma BuildingKeepsChain(links: seq<Link>, sealed: seq<Instances>, k: nat, name: string, made: Instance)
    requires GoodChain(links, sealed) && k < |links|
    ensures GoodChain(links[k := WithComponent(links[k], name, made)], sealed)
  {
    var updated := links[k := WithComponent(links[k], name, made)];
    forall i: nat | i < |updated|
      ensures GoodLink(updated, sealed, i)
    {
      assert GoodLink(links, sealed, i);
      if i == k {
        assert updated[k].inherited == Newest(sealed[..k]) - updated[k].components.Keys;
      }
    }
  }

  /** The newest instance of a name is the one of the latest generation that had built it. */
  lemma {:induction false} NewestIsLatest(built: seq<Instances>, name: string)
    ensures name in Newest(built) <==> exists i :: 0 <= i < |built| && name in built[i]
    ensures forall i | 0 <= i < |built| && name in built[i] && (forall j | i < j < |built| :: name !in built[j]) ::
              name in Newest(built) && Newest(built)[name] == built[i][name]
  {
    if built != [] {
      var n := |built| - 1;
      NewestIsLatest(built[..n], name);
      assert forall i | 0 <= i < n :: built[..n][i] == built[i];
    }
  }

  // ---------------------------------------------------------------- runs

  /** The loader returns a settings object, or some generation is asked for a component. */
  datatype Step = Use(settings: Token) | Build(k: nat, name: string, made: Instance)

  datatype Chain = Chain(links: seq<Link>, sealed: seq<Instances>)

  function Next(c: Chain, step: Step): Chain {
    match step
    case Use(settings) =>
      if c.links != [] && c.links[|c.links| - 1].settings == settings then c
      else Chain(Extended(c.links, settings), SealedBy(c.links, c.sealed))
    case Build(k, name, made) =>
      if k >= |c.links| then c else c.(links := c.links[k := WithComponent(c.links[k], name, made)])
  }

  function Run(c: Chain, steps: seq<Step>): Chain {
    if steps == [] then c else Next(Run(c, steps[..|steps| - 1]), steps[|steps| - 1])
  }

  /** Generations are only added, keep their number and settings, and never rebuild a component. */
  lemma {:induction false} BuiltAtMostOnce(c: Chain, steps: seq<Step>)
    requires GoodChain(c.links, c.sealed)
    ensures var after := Run(c, steps);
            && GoodChain(after.links, after.sealed) && |c.links| <= |after.links|
            && forall i | 0 <= i < |c.links| ::
                 && after.links[i].number == c.links[i].number && after.links[i].settings == c.links[i].settings
                 && Built(c.links[i].components, after.links[i].components)
  {
    if steps != [] {
      var before, last := Run(c, steps[..|steps| - 1]), steps[|steps| - 1];
      BuiltAtMostOnce(c, steps[..|steps| - 1]);
      if last.Build? && last.k < |before.links| {
        BuildingKeepsChain(before.links, before.sealed, last.k, last.name, last.made);
      } else if last.Use? && Next(before, last) != before {
        ExtendingKeepsChain(before.links, before.sealed, last.settings);
      }
    }
  }

  /**
   After any run, what a generation inherits under a name it has not built is the instance of the latest earlier
   generation that had built it when that generation's successor was created.
   */
  lemma InheritsTheLatestBuilt(steps: seq<Step>, i: nat, name: string)
    requires i < |Run(Chain([], []), steps).links|
    ensures var (links, sealed) := var c := Run(Chain([], []), steps); (c.links, c.sealed);
            && |links| == |sealed| + 1
            && (name in links[i].inherited <==>
                  name !in links[i].components && exists j | 0 <= j < i :: name in sealed[j])
            && forall j | 0 <= j < i && name in sealed[j] && name in links[i].inherited
                          && (forall m | j < m < i :: name !in sealed[m]) ::
                 && name in links[j].components
                 && links[i].inherited[name] == sealed[j][name] == links[j].components[name]
  {
    BuiltAtMostOnce(Chain([], []), steps);
    var c := Run(Chain([], []), steps);
    assert GoodLink(c.links, c.sealed, i);
    NewestIsLatest(c.sealed[..i], name);
    assert forall j | 0 <= j < i :: c.sealed[..i][j] == c.sealed[j];
    forall j | 0 <= j < i && name in c.sealed[j]
      ensures name in c.links[j].components && c.links[j].components[name] == c.sealed[j][name]
    {
      assert GoodLink(c.links, c.sealed, j);
    }
  }

  class SettingsRuntime {
    var current: SettingsGeneration?
    ghost var chain: seq<SettingsGeneration>
    ghost var sealed: seq<Instances>

    ghost function Links(): (links: seq<Link>)
      reads this, chain
      ensures |links| == |chain| && forall i | 0 <= i < |chain| :: links[i] == chain[i].Value()
    {
      seq(|chain|, i requires 0 <= i < |chain| reads this, chain => chain[i].Value())
    }

    ghost predicate Valid()
      reads this, chain
    {
      && (if chain == [] then current == null else current == chain[|chain| - 1])
      && (forall i, j | 0 <= i < j < |chain| :: chain[i] != chain[j])
      && GoodChain(Links(), sealed)
    }

    constructor ()
      ensures Valid() && chain == []
    {
      current, chain, sealed := null, [], [];
    }

    /**
     `current`: a generation for the settings object the loader returned, which under threads may be an older
     object than the one installed meanwhile.
     */
    method Current(settings: Token) returns (generation: SettingsGeneration)
      requires Valid()
      modifies this
      ensures Valid() && generation == current && generation.settings == settings
      ensures if old(current) != null && old(current).settings == settings then
                chain == old(chain) && sealed == old(sealed)
              else
                && fresh(generation) && chain == old(chain) + [generation]
                && generation.number == |old(chain)| + 1 && generation.components == map[]
                && generation.inherited == Newest(sealed) && sealed == SealedBy(old(Links()), old(sealed))
    {
      if current != null && current.settings == settings {
        return current;
      }
      ghost var links := Links();
      if current == null {
        generation := new SettingsGeneration(1, settings, map[]);
      } else {
        generation := new SettingsGeneration(current.number + 1, settings, current.SuccessorInheritance());
      }
      ExtendingKeepsChain(links, sealed, settings);
      sealed := SealedBy(links, sealed);
      chain := chain + [generation];
      current := generation;
      assert Links() == Extended(links, settings);
    }

    /** A component of any generation, current or pinned by a request that is still running. */
    method Component(generation: SettingsGeneration, name: string, made: Instance) returns (value: Instance)
      requires Valid() && generation in chain
      modifies generation
      ensures Valid() && generation.Value() == WithComponent(old(generation.Value()), name, made)
      ensures name in generation.components && value == generation.components[name]
    {
      ghost var links := Links();
      ghost var k: nat :| k < |chain| && chain[k] == generation;
      value := generation.Component(name, made);
      BuildingKeepsChain(links, sealed, k, name, made);
      assert Links() == links[k := WithComponent(links[k], name, made)];
    }
  }
}
