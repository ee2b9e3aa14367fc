/** Playback navigation (`useSceneTransitions`): a history stack of visited
    segments laid out left to right on the world strip, the segments being
    drawn, the current scene, and the id of the latest transition. Each
    transition ends with a completion callback that collapses the drawn
    segments, unless a newer transition has started since. */
module SceneHistory {
  import opened Wrappers
  import opened Types

  datatype Nav = Nav(history: seq<Segment>, active: seq<Segment>, current: Scene, transition: Option<int>)

  /** A pending completion: its transition id and the segments it collapses to. */
  datatype Completion = Completion(id: int, collapseTo: seq<Segment>)

  /** The first effect: the initial scene as the only segment, at 0. `visitId`
      is the clock reading the segment is stamped with. */
  function Init(initial: Scene, current: Scene, visitId: int): (r: Nav)
    ensures r.history == [Segment(initial, 0.0, visitId)] && r.active == r.history
    ensures r.transition.None?
  {
    Nav([Segment(initial, 0.0, visitId)], [Segment(initial, 0.0, visitId)], current, None)
  }

  /** `goForward`: an unknown scene changes nothing. Otherwise the transition
      id is renewed first; with an empty history nothing else happens; else
      the next scene becomes current and a segment for it, starting where
      the top segment ends, is pushed onto the history and the drawn
      segments. `now` and `visitId` are clock readings. */
  function GoForward(nav: Nav, scenes: Scenes, nextId: string, now: int, visitId: int): (r: (Nav, Option<Completion>))
    ensures nextId !in scenes ==> r == (nav, None)
    ensures nextId in scenes ==> r.0.transition == Some(now)
    ensures |nav.history| == 0 ==> r.0.history == nav.history && r.0.current == nav.current && r.1.None?
    ensures nextId in scenes && |nav.history| > 0 ==>
              var top := nav.history[|nav.history| - 1];
              var seg := Segment(scenes[nextId], top.startX + top.scene.width, visitId);
              && r.0.history == nav.history + [seg]
              && r.0.active == nav.active + [seg]
              && r.0.current == scenes[nextId]
              && r.1 == Some(Completion(now, [seg]))
  {
    if nextId !in scenes then (nav, None)
    else
      var nav1 := nav.(transition := Some(now));
      if |nav.history| == 0 then (nav1, None)
      else
        var top := nav.history[|nav.history| - 1];
        var seg := Segment(scenes[nextId], top.startX + top.scene.width, visitId);
        (nav1.(history := nav.history + [seg], active := nav.active + [seg], current := scenes[nextId]),
         Some(Completion(now, [seg])))
  }

  /** `goBack`: with fewer than two segments nothing happens; otherwise the
      top is popped, the one below it becomes current, and both are drawn. */
  function GoBack(nav: Nav, now: int): (r: (Nav, Option<Completion>))
    ensures |nav.history| < 2 ==> r == (nav, None)
    ensures |nav.history| >= 2 ==>
              var n := |nav.history|;
              && r.0.history == nav.history[..n - 1]
              && r.0.active == [nav.history[n - 2], nav.history[n - 1]]
              && r.0.current == nav.history[n - 2].scene
              && r.0.transition == Some(now)
              && r.1 == Some(Completion(now, [nav.history[n - 2]]))
  {
    if |nav.history| < 2 then (nav, None)
    else
      var n := |nav.history|;
      var cur, prev := nav.history[n - 1], nav.history[n - 2];
      (Nav(nav.history[..n - 1], [prev, cur], prev.scene, Some(now)), Some(Completion(now, [prev])))
  }

  /** A tween's `onComplete`: it collapses the drawn segments only if its
      transition is still the latest. */
  function Complete(nav: Nav, c: Completion): (r: Nav)
    ensures nav.transition == Some(c.id) ==> r == nav.(active := c.collapseTo)
    ensures nav.transition != Some(c.id) ==> r == nav
  {
    if nav.transition == Some(c.id) then nav.(active := c.collapseTo) else nav
  }

  /** The history is laid out without gaps: each segment starts where the one
      before it ends, and the current scene is the top segment's. */
  predicate WellLaidOut(nav: Nav) {
    && |nav.history| > 0
    && nav.current == nav.history[|nav.history| - 1].scene
    && forall i :: 0 < i < |nav.history| ==>
         nav.history[i].startX == nav.history[i - 1].startX + nav.history[i - 1].scene.width
  }

  lemma InitLaidOut(initial: Scene, visitId: int)
    ensures WellLaidOut(Init(initial, initial, visitId))
  {
  }

  /** Both navigations keep the history laid out. */
  lemma NavigationKeepsLayout(nav: Nav, scenes: Scenes, nextId: string, now: int, visitId: int)
    requires WellLaidOut(nav)
    ensures WellLaidOut(GoForward(nav, scenes, nextId, now, visitId).0)
    ensures WellLaidOut(GoBack(nav, now).0)
  {
    var n := |nav.history|;
    if n >= 2 {
      var h := GoBack(nav, now).0.history;
      assert forall i :: 0 <= i < |h| ==> h[i] == nav.history[i];
    }
  }

  /** Going forward and then back returns to the same history and current
      scene. */
  lemma ForwardThenBack(nav: Nav, scenes: Scenes, nextId: string, now: int, visitId: int, later: int)
    requires WellLaidOut(nav) && nextId in scenes
    ensures var back := GoBack(GoForward(nav, scenes, nextId, now, visitId).0, later).0;
            back.history == nav.history && back.current == nav.current
  {
    var fwd := GoForward(nav, scenes, nextId, now, visitId).0;
    assert fwd.history[..|fwd.history| - 1] == nav.history;
  }

  /** A forward transition interrupted by going back cannot collapse the
      drawn segments when its tween completes late. */
  lemma StaleCompletionIgnored(nav: Nav, scenes: Scenes, nextId: string, now: int, visitId: int, later: int)
    requires WellLaidOut(nav) && nextId in scenes && later != now
    ensures var (fwd, c) := GoForward(nav, scenes, nextId, now, visitId);
            var back := GoBack(fwd, later).0;
            c.Some? && Complete(back, c.value) == back
  {
  }
}
