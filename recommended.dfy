/** `useRecommended`: the recommended modules stored for a reference id, in stored order. */
module Recommended {
  import opened Wrappers

  datatype ModuleType = Carousel | Jumbotron

  datatype EpisodeSummary = EpisodeSummary(description: string, id: string, premium: bool, thumbnailUrl: string, title: string)
  datatype SeriesSummary = SeriesSummary(id: string, thumbnailUrl: string, title: string)
  datatype RecommendedItem = RecommendedItem(episode: Option<EpisodeSummary>, id: string, series: Option<SeriesSummary>)
  datatype RecommendedModule = RecommendedModule(id: string, items: seq<RecommendedItem>, title: string, kind: ModuleType)

  /** `state.features.recommended`: module ids per reference id, and modules by id. */
  datatype RecommendedState = RecommendedState(
    references: map<string, seq<string>>,
    recommendedModules: map<string, RecommendedModule>)

  /** `moduleIds.map((moduleId) => recommendedModules[moduleId])` */
  function LookUp(ids: seq<string>, modules: map<string, RecommendedModule>): (r: seq<Option<RecommendedModule>>)
    ensures |r| == |ids|
    ensures forall i :: 0 <= i < |ids| ==> r[i] == (if ids[i] in modules then Some(modules[ids[i]]) else None)
  {
    seq(|ids|, i requires 0 <= i < |ids| => if ids[i] in modules then Some(modules[ids[i]]) else None)
  }

  /** `.filter((m) => m != null)` */
  function PresentOnly(xs: seq<Option<RecommendedModule>>): (r: seq<RecommendedModule>)
    ensures |r| <= |xs|
  {
    if xs == [] then []
    else (if xs[0].Some? then [xs[0].value] else []) + PresentOnly(xs[1..])
  }

  /** `useRecommended({ referenceId })` */
  function UseRecommended(state: RecommendedState, referenceId: string): seq<RecommendedModule> {
    if referenceId !in state.references then []
    else PresentOnly(LookUp(state.references[referenceId], state.recommendedModules))
  }

  /** The filter keeps the present values in order: it distributes over concatenation. */
  lemma {:induction false} PresentOnlyAppend(a: seq<Option<RecommendedModule>>, b: seq<Option<RecommendedModule>>)
    ensures PresentOnly(a + b) == PresentOnly(a) + PresentOnly(b)
  {
    if a == [] {
      assert a + b == b;
    } else {
      var head := if a[0].Some? then [a[0].value] else [];
      assert (a + b)[0] == a[0];
      assert (a + b)[1..] == a[1..] + b;
      assert PresentOnly(a + b) == head + PresentOnly(a[1..] + b);
      PresentOnlyAppend(a[1..], b);
      assert PresentOnly(a) == head + PresentOnly(a[1..]);
    }
  }

  /** A module is in the filtered list exactly when some entry holds it. */
  lemma {:induction false} PresentOnlyMembers(xs: seq<Option<RecommendedModule>>, m: RecommendedModule)
    ensures m in PresentOnly(xs) <==> Some(m) in xs
  {
    if xs != [] {
      PresentOnlyMembers(xs[1..], m);
      assert xs == [xs[0]] + xs[1..];
    }
  }

  /** With no entry left out, the filter drops nothing and keeps positions. */
  lemma {:induction false} PresentOnlyAllPresent(xs: seq<Option<RecommendedModule>>)
    requires forall i :: 0 <= i < |xs| ==> xs[i].Some?
    ensures |PresentOnly(xs)| == |xs|
    ensures forall i :: 0 <= i < |xs| ==> PresentOnly(xs)[i] == xs[i].value
  {
    if xs != [] {
      PresentOnlyAllPresent(xs[1..]);
    }
  }

  /** An unknown reference id gives no modules. */
  lemma UnknownReferenceIsEmpty(state: RecommendedState, referenceId: string)
    requires referenceId !in state.references
    ensures UseRecommended(state, referenceId) == []
  {
  }

  /**
   * The result holds a module exactly when one of the reference's listed ids
   * names it, and is never longer than the list of ids.
   */
  lemma UseRecommendedMembers(state: RecommendedState, referenceId: string, m: RecommendedModule)
    requires referenceId in state.references
    ensures var ids := state.references[referenceId];
      && |UseRecommended(state, referenceId)| <= |ids|
      && (m in UseRecommended(state, referenceId) <==>
          exists i :: 0 <= i < |ids| && ids[i] in state.recommendedModules && state.recommendedModules[ids[i]] == m)
  {
    var ids := state.references[referenceId];
    var xs := LookUp(ids, state.recommendedModules);
    PresentOnlyMembers(xs, m);
    if Some(m) in xs {
      var i :| 0 <= i < |xs| && xs[i] == Some(m);
      assert ids[i] in state.recommendedModules && state.recommendedModules[ids[i]] == m;
    }
  }

  /**
   * Order follows the id list: the modules for a list of ids are those for
   * its first part followed by those for the rest, and ids without a module
   * contribute nothing.
   */
  lemma LookUpFollowsIdOrder(ids1: seq<string>, ids2: seq<string>, modules: map<string, RecommendedModule>)
    ensures PresentOnly(LookUp(ids1 + ids2, modules))
      == PresentOnly(LookUp(ids1, modules)) + PresentOnly(LookUp(ids2, modules))
  {
    assert LookUp(ids1 + ids2, modules) == LookUp(ids1, modules) + LookUp(ids2, modules);
    PresentOnlyAppend(LookUp(ids1, modules), LookUp(ids2, modules));
  }

  /**
   * When every listed id has a module, the result is the modules of the ids
   * position by position, repeated ids giving repeated modules.
   */
  lemma AllPresentKeepsPositions(state: RecommendedState, referenceId: string)
    requires referenceId in state.references
    requires forall id :: id in state.references[referenceId] ==> id in state.recommendedModules
    ensures var ids := state.references[referenceId]; var r := UseRecommended(state, referenceId);
      |r| == |ids| && forall i :: 0 <= i < |ids| ==> r[i] == state.recommendedModules[ids[i]]
  {
    var ids := state.references[referenceId];
    var xs := LookUp(ids, state.recommendedModules);
    assert forall i :: 0 <= i < |xs| ==> ids[i] in ids;
    PresentOnlyAllPresent(xs);
  }
}
