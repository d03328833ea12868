/** Small concrete modules on which the route analysis is worked out by hand. */
module Scenarios {
  import opened Layout
  import opened Index
  import opened Coupling
  import opened Route
  import opened Speed

  /** Two main signals at elements 1 and 2 that are coupled to each other
      (reference points 10 and 20): A -> B -> A. */
  function LoopSignalA(): Signal { Signal([16.0], [], Some(KoppelSignal(None, 20))) }
  function LoopSignalB(): Signal { Signal([12.0], [], Some(KoppelSignal(None, 10))) }

  function LoopContext(): Context
  {
    var a := StrElement(1, Some(LoopSignalA()), None);
    var b := StrElement(2, Some(LoopSignalB()), None);
    Context("STRECKE.ST3", map[1 := a, 2 := b], map[10 := RefPoint(a, Norm), 20 := RefPoint(b, Norm)])
  }

  /** On A -> B -> A the script's loop never stops for any step bound, while the
      checked walk shows B once and then reports the circular reference back to A. */
  lemma CircularCouplingScenario(fuel: nat)
    ensures RefsResolve(LoopContext())
    ensures Walk(LoopContext(), LoopSignalA().koppel, 0, 2, None, fuel)
      == Walk(LoopContext(), LoopSignalA().koppel, 0, 2, None, fuel).(end := FuelExhausted)
    ensures |Walk(LoopContext(), LoopSignalA().koppel, 0, 2, None, fuel).lines| == fuel
    ensures WalkChecked(LoopContext(), LoopSignalA().koppel, 0, 2, {(1, Norm)})
      == Chain([CouplingLine(2, 2, Norm, 0, 12.0)], CircularReference(4))
  {
    var ctx := LoopContext();
    var ks := {KoppelSignal(None, 10), KoppelSignal(None, 20)};
    assert StepsWithin(ctx, KoppelSignal(None, 10), 0, ks);
    assert StepsWithin(ctx, KoppelSignal(None, 20), 0, ks);
    assert Cyclic(ctx, ks, 0);
    CycleExhaustsFuel(ctx, ks, LoopSignalA().koppel, 0, 2, fuel);
    var rest := WalkChecked(ctx, LoopSignalB().koppel, 0, 4, {(1, Norm), (2, Norm)});
    assert rest == Chain([], CircularReference(4));
  }

  /** Main signals at elements 1 and 2 (rows 20 m/s and 15 m/s), and a distant
      signal at element 3 with columns 10 m/s and 25 m/s. */
  function SpeedContext(): Context
  {
    var h1 := StrElement(1, Some(Signal([20.0], [], None)), None);
    var h2 := StrElement(2, None, Some(Signal([0.0, 15.0], [], None)));
    var v := StrElement(3, Some(Signal([], [10.0, 25.0], None)), None);
    Context("STRECKE.ST3", map[1 := h1, 2 := h2, 3 := v],
            map[10 := RefPoint(h1, Norm), 20 := RefPoint(h2, Gegen), 30 := RefPoint(v, Norm)])
  }

  function SpeedPlacements(): seq<FahrstrSignal>
  {
    [FahrstrSignal(None, 10, 0, 0), FahrstrSignal(Some(""), 20, 0, 1)]
  }

  function SpeedVPlacements(): seq<FahrstrVSignal>
  {
    [FahrstrVSignal(None, 30, 0), FahrstrVSignal(None, 30, 1)]
  }

  lemma SpeedScenarioMain()
    ensures HsigEntries(SpeedContext(), SpeedPlacements()) == Ok([
      Hsig(1, Norm, false, 0, 20.0, true, Chain([], NoCoupling)),
      Hsig(2, Gegen, false, 1, 15.0, true, Chain([], NoCoupling))])
  {
    var ctx := SpeedContext();
    var ps := SpeedPlacements();
    var l1 := Hsig(1, Norm, false, 0, 20.0, true, Chain([], NoCoupling));
    var l2 := Hsig(2, Gegen, false, 1, 15.0, true, Chain([], NoCoupling));
    assert HsigEntry(ctx, ps[0]) == Ok(l1);
    assert HsigEntry(ctx, ps[1]) == Ok(l2);
    assert ps[..1] == [ps[0]] && ps[..1][..0] == [];
    assert HsigEntries(ctx, ps[..1][..0]) == Ok([]);
    assert ps[..1][0] == ps[0] && [] + [l1] == [l1] && [l1] + [l2] == [l1, l2];
    assert HsigEntries(ctx, ps[..1]) == Ok([l1]);
    assert ps[..|ps| - 1] == ps[..1];
  }

  lemma SpeedScenarioMin()
    ensures FoldMin(-1.0, Contributed([
      Hsig(1, Norm, false, 0, 20.0, true, Chain([], NoCoupling)),
      Hsig(2, Gegen, false, 1, 15.0, true, Chain([], NoCoupling))])) == 15.0
  {
    var l1 := Hsig(1, Norm, false, 0, 20.0, true, Chain([], NoCoupling));
    var l2 := Hsig(2, Gegen, false, 1, 15.0, true, Chain([], NoCoupling));
    ContributedSnoc([], l1);
    assert [] + [l1] == [l1] && [l1] + [l2] == [l1, l2];
    ContributedSnoc([l1], l2);
    assert Contributed([l1, l2]) == [20.0, 15.0];
    var cs := [20.0, 15.0];
    assert 0.0 <= cs[1];
  }

  lemma SpeedScenarioDistant()
    ensures VsigEntries(SpeedContext(), SpeedVPlacements(), 15.0)
      == Ok([Vsig(3, Norm, 0, 10.0, false), Vsig(3, Norm, 1, 25.0, true)])
  {
    var ctx := SpeedContext();
    var vs := SpeedVPlacements();
    var w1 := Vsig(3, Norm, 0, 10.0, false);
    var w2 := Vsig(3, Norm, 1, 25.0, true);
    assert VsigEntry(ctx, vs[0], 15.0) == Ok(w1);
    assert VsigEntry(ctx, vs[1], 15.0) == Ok(w2);
    assert vs[..1] == [vs[0]] && vs[..1][..0] == [];
    assert VsigEntries(ctx, vs[..1][..0], 15.0) == Ok([]);
    assert vs[..1][0] == vs[0] && [] + [w1] == [w1] && [w1] + [w2] == [w1, w2];
    assert VsigEntries(ctx, vs[..1], 15.0) == Ok([w1]);
    assert vs[..|vs| - 1] == vs[..1];
  }

  /** Two main signals with non-zero speeds give the route speed 15 m/s; of the
      two distant-signal placements only the one showing 25 m/s is marked. */
  lemma SpeedInconsistencyScenario()
    ensures var r := RouteSpec(SpeedContext(), Fahrstrasse(SpeedPlacements(), SpeedVPlacements()));
      && r.Ok?
      && r.value.minGeschw == 15.0
      && r.value.vsig == [Vsig(3, Norm, 0, 10.0, false), Vsig(3, Norm, 1, 25.0, true)]
  {
    SpeedScenarioMain();
    SpeedScenarioMin();
    SpeedScenarioDistant();
  }

  /** A later reference record naming a missing element does not hide an earlier
      valid record with the same number. */
  lemma InvalidDuplicateRefIgnored()
    ensures var e := StrElement(5, None, None);
      RefIndex(map[5 := e], [ReferenzElement(7, 5, 1), ReferenzElement(7, 99, 0)]) == map[7 := RefPoint(e, Norm)]
  {
    var e := StrElement(5, None, None);
    var rs := [ReferenzElement(7, 5, 1), ReferenzElement(7, 99, 0)];
    assert rs[..1] == [rs[0]] && rs[..1][..0] == [];
    assert RefIndex(map[5 := e], rs[..1]) == map[7 := RefPoint(e, Norm)];
    assert rs[..|rs| - 1] == rs[..1];
  }
}
