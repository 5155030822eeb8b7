/** Which providers a dependency container ends up with when imported ones are overridden. */
module ProviderOverrides {

  /** A provider function, identified by its name, and the types it provides. */
  datatype Provider = Provider(id: string, types: set<string>)

  /** What a module puts into its container. */
  datatype Container = Container(imports: seq<Container>, importsWithForce: seq<Container>,
                                 providers: map<string, Provider>, providersWithForce: map<string, Provider>)

  // ---------------------------------------------------------------- the rule

  type Layer = set<Provider>

  predicate Clash(p: Provider, q: Provider)
  {
    p.types * q.types != {}
  }

  /** A provider of the layer is live if no provider of a later layer shares a type with it. */
  ghost predicate LiveAt(layers: seq<Layer>, i: int, p: Provider)
  {
    0 <= i < |layers| && p in layers[i] && forall j, q :: i < j < |layers| && q in layers[j] ==> !Clash(p, q)
  }

  ghost predicate IsLive(layers: seq<Layer>, p: Provider)
  {
    exists i :: LiveAt(layers, i, p)
  }

  /** The last layer that provides a type at all does so by this provider. */
  ghost predicate LatestAt(layers: seq<Layer>, i: int, t: string, p: Provider)
  {
    && 0 <= i < |layers| && p in layers[i] && t in p.types
    && forall j, q :: i < j < |layers| && q in layers[j] ==> t !in q.types
  }

  ghost predicate IsLatest(layers: seq<Layer>, t: string, p: Provider)
  {
    exists i :: LatestAt(layers, i, t, p)
  }

  /** Within a layer every type has one provider, and ids determine providers throughout. */
  ghost predicate Unambiguous(layers: seq<Layer>)
  {
    && (forall i, p, q :: 0 <= i < |layers| && p in layers[i] && q in layers[i] && p != q ==> !Clash(p, q))
    && (forall i, j, p, q :: 0 <= i < |layers| && 0 <= j < |layers| && p in layers[i] && q in layers[j] && p.id == q.id ==>
          p == q)
  }

  /** Exactly the live providers, by id. */
  ghost predicate Represents(result: map<string, Provider>, layers: seq<Layer>)
  {
    && (forall id :: id in result ==> result[id].id == id && IsLive(layers, result[id]))
    && (forall p :: IsLive(layers, p) ==> p.id in result && result[p.id] == p)
  }

  /** The latest provider of every type. */
  ghost predicate Knows(provided: map<string, Provider>, layers: seq<Layer>)
  {
    && (forall t :: t in provided ==> IsLatest(layers, t, provided[t]))
    && (forall t, p :: IsLatest(layers, t, p) ==> t in provided)
  }

  /** No type has two live providers. */
  lemma OneLiveProvider(layers: seq<Layer>, p: Provider, q: Provider)
    requires Unambiguous(layers) && IsLive(layers, p) && IsLive(layers, q)
    ensures p == q || !Clash(p, q)
  {
    var i :| LiveAt(layers, i, p);
    var j :| LiveAt(layers, j, q);
    assert Clash(p, q) <==> Clash(q, p) by { assert p.types * q.types == q.types * p.types; }
  }

  /** The rule leaves no choice, so the order in which maps are gone through does not matter. */
  lemma OneResult(a: map<string, Provider>, b: map<string, Provider>, layers: seq<Layer>)
    requires Represents(a, layers) && Represents(b, layers)
    ensures a == b
  {
  }

  lemma OneLatest(layers: seq<Layer>, t: string, p: Provider, q: Provider)
    requires Unambiguous(layers) && IsLatest(layers, t, p) && IsLatest(layers, t, q)
    ensures p == q
  {
    var i :| LatestAt(layers, i, t, p);
    var j :| LatestAt(layers, j, t, q);
    assert i == j;
    assert t in p.types * q.types;
    assert Clash(p, q);
  }

  // ---------------------------------------------------------------- forcing one provider

  /** The last layer gets one more provider. */
  function Grown(layers: seq<Layer>, p: Provider): seq<Layer>
    requires layers != []
  {
    layers[|layers| - 1 := layers[|layers| - 1] + {p}]
  }

  /** Everything that provided one of these types has been taken out. */
  ghost predicate TakenOut(before: map<string, Provider>, after: map<string, Provider>, provided: map<string, Provider>,
                           types: set<string>)
  {
    && (forall id :: id in after ==> id in before && after[id] == before[id])
    && (forall id :: id in before && id !in after ==> exists t :: t in types && t in provided && provided[t].id == id)
    && (forall t :: t in types && t in provided ==> provided[t].id !in after)
  }

  /** p now provides these types. */
  ghost predicate TakenOver(before: map<string, Provider>, after: map<string, Provider>, p: Provider, types: set<string>)
  {
    && (forall t :: t in types ==> t in after && after[t] == p)
    && (forall t :: t !in types ==> (t in after <==> t in before) && (t in before ==> after[t] == before[t]))
  }

  lemma LiveStays(layers: seq<Layer>, p: Provider, q: Provider)
    requires layers != [] && IsLive(Grown(layers, p), q) && q != p
    ensures IsLive(layers, q)
  {
    var i :| LiveAt(Grown(layers, p), i, q);
    assert forall j :: 0 <= j < |layers| ==> layers[j] <= Grown(layers, p)[j];
    assert q in layers[i];
    assert LiveAt(layers, i, q);
  }

  lemma NewcomerIsLive(layers: seq<Layer>, p: Provider)
    requires layers != []
    ensures IsLive(Grown(layers, p), p)
  {
    assert LiveAt(Grown(layers, p), |layers| - 1, p);
  }

  /** A provider that loses to p is the latest provider of a type they share. */
  lemma LoserIsLatest(layers: seq<Layer>, p: Provider, q: Provider) returns (t: string)
    requires layers != [] && IsLive(layers, q) && !IsLive(Grown(layers, p), q)
    ensures t in p.types && IsLatest(layers, t, q)
  {
    var i :| LiveAt(layers, i, q);
    assert !LiveAt(Grown(layers, p), i, q);
    assert Clash(q, p);
    t :| t in q.types * p.types;
    forall j, r | i < j < |layers| && r in layers[j]
      ensures t !in r.types
    {
      assert !Clash(q, r);
      assert t in r.types ==> t in q.types * r.types;
    }
    assert LatestAt(layers, i, t, q);
  }

  /** A latest provider of a type of p loses to p. */
  lemma LatestLoses(layers: seq<Layer>, p: Provider, t: string, q: Provider)
    requires layers != [] && Unambiguous(Grown(layers, p)) && t in p.types && IsLatest(layers, t, q) && q != p
    ensures !IsLive(Grown(layers, p), q)
  {
    var grown, n := Grown(layers, p), |layers|;
    assert t in q.types * p.types && Clash(q, p);
    assert p in grown[n - 1];
  }

  lemma SurvivorStays(layers: seq<Layer>, p: Provider, r0: map<string, Provider>, r1: map<string, Provider>,
                      provided: map<string, Provider>, q: Provider)
    requires layers != [] && Unambiguous(layers) && Knows(provided, layers) && TakenOut(r0, r1, provided, p.types)
    requires IsLive(layers, q) && q.id in r1
    ensures IsLive(Grown(layers, p), q)
  {
    if !IsLive(Grown(layers, p), q) {
      var t := LoserIsLatest(layers, p, q);
      hide IsLive, IsLatest, Unambiguous;
      OneLatest(layers, t, q, provided[t]);
    }
  }

  lemma WinnerStays(layers: seq<Layer>, p: Provider, r0: map<string, Provider>, r1: map<string, Provider>,
                    provided: map<string, Provider>, q: Provider)
    requires layers != [] && Unambiguous(layers) && Unambiguous(Grown(layers, p))
    requires Represents(r0, layers) && Knows(provided, layers) && TakenOut(r0, r1, provided, p.types)
    requires IsLive(Grown(layers, p), q) && q != p
    ensures q.id in r1 && r1[q.id] == q && q.id != p.id
  {
    hide IsLive, IsLatest, Unambiguous, Grown;
    LiveStays(layers, p, q);
    NewcomerIsLive(layers, p);
    if q.id == p.id {
      SameIdSameProvider(Grown(layers, p), p, q);
    }
    if q.id !in r1 {
      var t :| t in p.types && t in provided && provided[t].id == q.id;
      LatestIsIn(layers, t, provided[t], q);
      LatestLoses(layers, p, t, q);
    }
  }

  /** Forcing a provider into the last layer. */
  lemma Forced(layers: seq<Layer>, p: Provider, r0: map<string, Provider>, r1: map<string, Provider>,
               provided: map<string, Provider>)
    requires layers != [] && Unambiguous(Grown(layers, p)) && Unambiguous(layers)
    requires Represents(r0, layers) && Knows(provided, layers) && TakenOut(r0, r1, provided, p.types)
    ensures Represents(r1[p.id := p], Grown(layers, p))
  {
    hide IsLive, IsLatest, Unambiguous, Grown, Knows;
    var grown, after := Grown(layers, p), r1[p.id := p];
    NewcomerIsLive(layers, p);
    forall id | id in after
      ensures after[id].id == id && IsLive(grown, after[id])
    {
      if id != p.id {
        SurvivorStays(layers, p, r0, r1, provided, after[id]);
      }
    }
    forall q | IsLive(grown, q)
      ensures q.id in after && after[q.id] == q
    {
      if q != p {
        WinnerStays(layers, p, r0, r1, provided, q);
      }
    }
  }

  lemma SameIdSameProvider(layers: seq<Layer>, p: Provider, q: Provider)
    requires Unambiguous(layers) && IsLive(layers, p) && IsLive(layers, q) && p.id == q.id
    ensures p == q
  {
    var i :| LiveAt(layers, i, p);
    var j :| LiveAt(layers, j, q);
  }

  lemma LatestIsIn(layers: seq<Layer>, t: string, p: Provider, q: Provider)
    requires Unambiguous(layers) && IsLatest(layers, t, p) && IsLive(layers, q) && p.id == q.id
    ensures p == q
  {
    var i :| LatestAt(layers, i, t, p);
    var j :| LiveAt(layers, j, q);
  }

  /** The newcomer is the latest provider of its types; the others have the latest they had. */
  lemma KnownAfter(layers: seq<Layer>, p: Provider, before: map<string, Provider>, after: map<string, Provider>)
    requires layers != [] && Knows(before, layers) && TakenOver(before, after, p, p.types)
    ensures Knows(after, Grown(layers, p))
  {
    var grown := Grown(layers, p);
    forall t | t in after
      ensures IsLatest(grown, t, after[t])
    {
      if t in p.types {
        assert LatestAt(grown, |layers| - 1, t, p);
      } else {
        var i :| LatestAt(layers, i, t, before[t]);
        assert LatestAt(grown, i, t, before[t]);
      }
    }
    forall t, q | IsLatest(grown, t, q)
      ensures t in after
    {
      if t !in p.types {
        var i :| LatestAt(grown, i, t, q);
        assert forall j :: 0 <= j < |layers| ==> layers[j] <= grown[j];
        assert q in layers[i];
        assert LatestAt(layers, i, t, q);
        assert IsLatest(layers, t, q);
      }
    }
  }

  // ---------------------------------------------------------------- the containers

  /** The providers of a map, under their own ids. */
  predicate Keyed(providers: map<string, Provider>)
  {
    forall id :: id in providers ==> providers[id].id == id
  }

  ghost function Union(layers: seq<Layer>): Layer
  {
    if layers == [] then {} else layers[0] + Union(layers[1..])
  }

  lemma {:induction false} InUnion(layers: seq<Layer>, i: nat)
    requires i < |layers|
    ensures layers[i] <= Union(layers)
  {
    if i > 0 {
      InUnion(layers[1..], i - 1);
    }
  }

  ghost function Live(layers: seq<Layer>): Layer
  {
    set p | p in Union(layers) && IsLive(layers, p)
  }

  /** The layers of a container: its imports and its own providers, then every forced import,
      then its own forced providers. */
  ghost function Layers(c: Container): seq<Layer>
    decreases c
  {
    [Union(AllLive(c.imports)) + c.providers.Values] + AllLive(c.importsWithForce) + [c.providersWithForce.Values]
  }

  ghost function AllLive(cs: seq<Container>): (r: seq<Layer>)
    ensures |r| == |cs| && forall i :: 0 <= i < |cs| ==> r[i] == Live(Layers(cs[i]))
    decreases cs
  {
    if cs == [] then [] else [Live(Layers(cs[0]))] + AllLive(cs[1..])
  }

  /** Throughout a container and its imports, layers are unambiguous. */
  ghost predicate WellFormed(c: Container)
  {
    hide Layers, Unambiguous, Keyed;
    && Keyed(c.providers) && Keyed(c.providersWithForce) && Unambiguous(Layers(c))
    && (forall i :: 0 <= i < |c.imports| ==> WellFormed(c.imports[i]))
    && (forall i :: 0 <= i < |c.importsWithForce| ==> WellFormed(c.importsWithForce[i]))
  }

  /** Takes over the types of a provider, in any order, throwing out who provided them. */
  method ForceProvider(result: map<string, Provider>, provided: map<string, Provider>, p: Provider)
    returns (result': map<string, Provider>, provided': map<string, Provider>)
    ensures exists r1 :: TakenOut(result, r1, provided, p.types) && result' == r1[p.id := p]
    ensures TakenOver(provided, provided', p, p.types)
  {
    result', provided' := result, provided;
    var types := p.types;
    while types != {}
      invariant types <= p.types
      invariant TakenOut(result, result', provided, p.types - types)
      invariant TakenOver(provided, provided', p, p.types - types)
      decreases types
    {
      var t :| t in types;
      types := types - {t};
      if t in provided' {
        result' := result' - {provided'[t].id};
      }
      provided' := provided'[t := p];
    }
    assert p.types - types == p.types;
    result' := result'[p.id := p];
  }

  lemma EmptyLayer(layers: seq<Layer>, result: map<string, Provider>, provided: map<string, Provider>)
    requires Represents(result, layers) && Knows(provided, layers)
    ensures Represents(result, layers + [{}]) && Knows(provided, layers + [{}])
  {
    var more: seq<Layer> := layers + [{}];
    forall p
      ensures IsLive(layers, p) <==> IsLive(more, p)
    {
      if i :| LiveAt(layers, i, p) {
        assert LiveAt(more, i, p);
      }
      if i :| LiveAt(more, i, p) {
        assert forall j :: 0 <= j < |layers| ==> layers[j] == more[j];
        assert LiveAt(layers, i, p);
      }
    }
    forall t, p
      ensures IsLatest(layers, t, p) <==> IsLatest(more, t, p)
    {
      if i :| LatestAt(layers, i, t, p) {
        assert LatestAt(more, i, t, p);
      }
      if i :| LatestAt(more, i, t, p) {
        assert forall j :: 0 <= j < |layers| ==> layers[j] == more[j];
        assert LatestAt(layers, i, t, p);
      }
    }
  }

  lemma PartOfLayer(layers: seq<Layer>, whole: Layer, part: Layer)
    requires Unambiguous(layers + [whole]) && part <= whole
    ensures Unambiguous(layers + [part])
  {
    var a, b := layers + [whole], layers + [part];
    assert forall i :: 0 <= i < |b| ==> b[i] <= a[i];
  }

  lemma GrownLast(layers: seq<Layer>, done: Layer, p: Provider)
    ensures Grown(layers + [done], p) == layers + [done + {p}]
  {
  }

  lemma ForcedStep(layers: seq<Layer>, whole: Layer, done: Layer, p: Provider,
                   result: map<string, Provider>, provided: map<string, Provider>,
                   result': map<string, Provider>, provided': map<string, Provider>)
    requires Unambiguous(layers + [whole]) && done + {p} <= whole
    requires Represents(result, layers + [done]) && Knows(provided, layers + [done])
    requires exists r1 :: TakenOut(result, r1, provided, p.types) && result' == r1[p.id := p]
    requires TakenOver(provided, provided', p, p.types)
    ensures Represents(result', layers + [done + {p}]) && Knows(provided', layers + [done + {p}])
  {
    hide Unambiguous, Represents, Knows, TakenOut, TakenOver, Grown;
    PartOfLayer(layers, whole, done);
    PartOfLayer(layers, whole, done + {p});
    var r1 :| TakenOut(result, r1, provided, p.types) && result' == r1[p.id := p];
    GrownLast(layers, done, p);
    Forced(layers + [done], p, result, r1, provided);
    KnownAfter(layers + [done], p, provided, provided');
  }

  /** Forces the providers of one layer, in any order. */
  method ForceLayer(result: map<string, Provider>, provided: map<string, Provider>, layer: map<string, Provider>,
                    ghost layers: seq<Layer>)
    returns (result': map<string, Provider>, provided': map<string, Provider>)
    requires Keyed(layer) && Unambiguous(layers + [layer.Values])
    requires Represents(result, layers) && Knows(provided, layers)
    ensures Represents(result', layers + [layer.Values]) && Knows(provided', layers + [layer.Values])
  {
    hide Unambiguous, Represents, Knows, TakenOut, TakenOver;
    result', provided' := result, provided;
    ghost var done: Layer := {};
    EmptyLayer(layers, result, provided);
    var ids := layer.Keys;
    while ids != {}
      invariant ids <= layer.Keys && done <= layer.Values
      invariant forall id :: id in layer ==> id in ids || layer[id] in done
      invariant Represents(result', layers + [done]) && Knows(provided', layers + [done])
      decreases ids
    {
      var id :| id in ids;
      ids := ids - {id};
      var p := layer[id];
      ghost var r0, p0 := result', provided';
      result', provided' := ForceProvider(result', provided', p);
      ForcedStep(layers, layer.Values, done, p, r0, p0, result', provided');
      done := done + {p};
    }
    assert done == layer.Values;
  }

  /** Exactly the providers of one layer, by id. */
  ghost predicate Collects(result: map<string, Provider>, layer: Layer)
  {
    && (forall id :: id in result ==> result[id].id == id && result[id] in layer)
    && (forall p :: p in layer ==> p.id in result && result[p.id] == p)
  }

  lemma MergedCollects(a: map<string, Provider>, p: Layer, b: map<string, Provider>, q: Layer, layers: seq<Layer>)
    requires Collects(a, p) && Collects(b, q) && layers != [] && p + q <= layers[0] && Unambiguous(layers)
    ensures Collects(a + b, p + q)
  {
  }

  lemma LiveIsCollected(result: map<string, Provider>, layers: seq<Layer>)
    requires Represents(result, layers)
    ensures Collects(result, Live(layers))
  {
    forall p | IsLive(layers, p)
      ensures p in Live(layers)
    {
      var i :| LiveAt(layers, i, p);
      InUnion(layers, i);
    }
  }

  lemma BaseIsLive(result: map<string, Provider>, layer: Layer)
    requires Collects(result, layer)
    ensures Represents(result, [layer])
  {
    forall p | p in layer
      ensures IsLive([layer], p)
    {
      assert LiveAt([layer], 0, p);
    }
  }

  lemma {:induction false} UnionOfMore(layers: seq<Layer>, i: nat)
    requires i < |layers|
    ensures Union(layers[..i + 1]) == Union(layers[..i]) + layers[i]
  {
    if i > 0 {
      UnionOfMore(layers[1..], i - 1);
      assert layers[..i + 1][1..] == layers[1..][..i] && layers[..i][1..] == layers[1..][..i - 1];
    } else {
      assert layers[..1] == [layers[0]] && Union([layers[0]][1..]) == {};
    }
  }

  /** The types of a layer of which nothing is forced. */
  method ProvidedBy(result: map<string, Provider>, ghost layer: Layer) returns (provided: map<string, Provider>)
    requires Collects(result, layer)
    ensures Knows(provided, [layer])
  {
    provided := map[];
    var ids := result.Keys;
    while ids != {}
      invariant ids <= result.Keys
      invariant forall t :: t in provided ==> provided[t] in layer && t in provided[t].types
      invariant forall id :: id in result && id !in ids ==> result[id].types <= provided.Keys
      decreases ids
    {
      var id :| id in ids;
      ids := ids - {id};
      var p := result[id];
      var types := p.types;
      while types != {}
        invariant types <= p.types
        invariant forall t :: t in provided ==> provided[t] in layer && t in provided[t].types
        invariant forall id' :: id' in result && id' !in ids && id' != id ==> result[id'].types <= provided.Keys
        invariant p.types - types <= provided.Keys
        decreases types
      {
        var t :| t in types;
        types := types - {t};
        provided := provided[t := p];
      }
    }
    forall t | t in provided
      ensures IsLatest([layer], t, provided[t])
    {
      assert LatestAt([layer], 0, t, provided[t]);
    }
  }

  lemma MergeImport(result: map<string, Provider>, lives: seq<Layer>, i: nat, sub: map<string, Provider>, layers: seq<Layer>)
    requires i < |lives| && Collects(result, Union(lives[..i])) && Collects(sub, lives[i])
    requires layers != [] && Union(lives) <= layers[0] && Unambiguous(layers)
    ensures Collects(result + sub, Union(lives[..i + 1]))
  {
    UnionOfMore(lives, i);
    UnionOfPart(lives, i + 1);
    MergedCollects(result, Union(lives[..i]), sub, lives[i], layers);
  }

  lemma {:induction false} UnionOfPart(layers: seq<Layer>, i: nat)
    requires i <= |layers|
    ensures Union(layers[..i]) <= Union(layers)
  {
    if i > 0 {
      UnionOfPart(layers[1..], i - 1);
      assert layers[..i][1..] == layers[1..][..i - 1];
    }
  }

  lemma FirstLayers(layers: seq<Layer>, i: nat)
    requires i < |layers| && Unambiguous(layers)
    ensures Unambiguous(layers[..i + 1]) && layers[..i + 1] == layers[..i] + [layers[i]]
  {
  }

  lemma ValuesAreCollected(providers: map<string, Provider>, layer: Layer)
    requires Collects(providers, layer)
    ensures Keyed(providers) && providers.Values == layer
  {
  }

  lemma KeyedIsCollected(providers: map<string, Provider>)
    requires Keyed(providers)
    ensures Collects(providers, providers.Values)
  {
  }

  /** What forcing the imports and then its own forced providers goes through. */
  lemma LayersOf(c: Container)
    requires WellFormed(c)
    ensures var layers, n := Layers(c), |c.importsWithForce|;
            && |layers| == n + 2 && Unambiguous(layers) && Union(AllLive(c.imports)) + c.providers.Values == layers[0]
            && (forall i :: 0 <= i < n ==> layers[i + 1] == Live(Layers(c.importsWithForce[i])))
            && layers[n + 1] == c.providersWithForce.Values
  {
    hide Unambiguous, Live, Union, AllLive, Keyed;
  }

  lemma PartsOf(c: Container)
    requires WellFormed(c)
    ensures Keyed(c.providers) && Keyed(c.providersWithForce)
    ensures forall i :: 0 <= i < |c.imports| ==> WellFormed(c.imports[i])
    ensures forall i :: 0 <= i < |c.importsWithForce| ==> WellFormed(c.importsWithForce[i])
  {
    hide Layers, Unambiguous, Keyed;
  }

  /** All imported providers and the container's own, before anything is forced. */
  method Registered(c: Container) returns (result: map<string, Provider>)
    requires WellFormed(c)
    ensures Collects(result, Layers(c)[0])
    decreases c, 0
  {
    hide Represents, Unambiguous, Collects, Layers, Live, Union, AllLive, Keyed, WellFormed;
    LayersOf(c);
    PartsOf(c);
    ghost var layers := Layers(c);
    ghost var lives := AllLive(c.imports);
    result := map[];
    NothingCollected(lives);
    for i := 0 to |c.imports|
      invariant Collects(result, Union(lives[..i]))
    {
      var sub := AllProviders(c.imports[i]);
      LiveIsCollected(sub, Layers(c.imports[i]));
      MergeImport(result, lives, i, sub, layers);
      result := result + sub;
    }
    assert lives[..|c.imports|] == lives;
    KeyedIsCollected(c.providers);
    MergedCollects(result, Union(lives), c.providers, c.providers.Values, layers);
    result := result + c.providers;
  }

  /** The live providers of a container: of its imports, unless overridden, and its own. */
  method AllProviders(c: Container) returns (result: map<string, Provider>)
    requires WellFormed(c)
    ensures Represents(result, Layers(c))
    decreases c, 1
  {
    hide Represents, Knows, Unambiguous, Collects, Layers, Live, Union, AllLive, Keyed, WellFormed;
    LayersOf(c);
    PartsOf(c);
    ghost var layers := Layers(c);
    result := Registered(c);
    BaseIsLive(result, layers[0]);
    var provided := ProvidedBy(result, layers[0]);
    assert [layers[0]] == layers[..1];
    for i := 0 to |c.importsWithForce|
      invariant Represents(result, layers[..i + 1]) && Knows(provided, layers[..i + 1])
    {
      var sub := AllProviders(c.importsWithForce[i]);
      LiveIsCollected(sub, Layers(c.importsWithForce[i]));
      ValuesAreCollected(sub, layers[i + 1]);
      FirstLayers(layers, i + 1);
      result, provided := ForceLayer(result, provided, sub, layers[..i + 1]);
    }
    FirstLayers(layers, |layers| - 1);
    assert layers[..|layers|] == layers;
    result, provided := ForceLayer(result, provided, c.providersWithForce, layers[..|layers| - 1]);
  }

  lemma NothingCollected(lives: seq<Layer>)
    ensures Collects(map[], Union(lives[..0]))
  {
  }
}
