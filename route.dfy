/** The per-route check: the governing speed of a route ("min_geschw") from its
    main-signal placements, and the distant-signal placements whose speed exceeds it. */
module Route {
  import opened Layout
  import opened Speed
  import opened Index
  import opened Coupling

  /** The report of one main-signal placement. */
  datatype HsigLine =
    | ForeignHsig(dateiname: string)
    | Hsig(elementNr: int, richtung: Richtung, ersatz: bool, zeile: int, speed: real,
           contributes: bool, coupling: Chain)

  /** The report of one distant-signal placement; `flagged` is the "!!!!" mark. */
  datatype VsigLine =
    | ForeignVsig(dateiname: string)
    | Vsig(elementNr: int, richtung: Richtung, spalte: int, speed: real, flagged: bool)

  datatype RouteReport = RouteReport(minGeschw: real, hsig: seq<HsigLine>, vsig: seq<VsigLine>)

  /** One main-signal placement. A foreign placement is only reported. A
      substitute-signal placement stands for speed 0 and always takes part in the
      route speed; any other placement takes part unless its row's speed is 0. */
  function HsigEntry(ctx: Context, p: FahrstrSignal): (r: Result<HsigLine>)
    ensures IsForeign(ctx, p.datei) <==> r.Ok? && r.value.ForeignHsig?
    ensures !IsForeign(ctx, p.datei) && p.refNr !in ctx.refs ==> r == Err(UnknownRef(p.refNr))
    ensures r.Ok? && r.value.Hsig? ==>
      && p.refNr in ctx.refs
      && r.value.elementNr == ctx.refs[p.refNr].element.nr
      && r.value.richtung == ctx.refs[p.refNr].richtung
      && r.value.zeile == p.zeile
      && (r.value.ersatz <==> p.ersatzsignal == 1)
      && (r.value.ersatz ==> r.value.speed == 0.0)
      && (r.value.contributes <==> r.value.ersatz || r.value.speed != 0.0)
      && !r.value.coupling.end.Aborted? && !r.value.coupling.end.FuelExhausted?
    ensures r.Ok? && r.value.Hsig? && !r.value.ersatz ==>
      var rp := ctx.refs[p.refNr];
      && SignalAt(rp.element, rp.richtung).Some?
      && PyIndex(SignalAt(rp.element, rp.richtung).value.hsigGeschw, p.zeile) == Some(r.value.speed)
  {
    if IsForeign(ctx, p.datei) then Ok(ForeignHsig(p.datei.value))
    else if p.refNr !in ctx.refs then Err(UnknownRef(p.refNr))
    else
      var rp := ctx.refs[p.refNr];
      match SignalAt(rp.element, rp.richtung)
      case None => Err(MissingSignal(rp.element.nr, rp.richtung))
      case Some(sig) =>
        var ersatz := p.ersatzsignal == 1;
        var row := PyIndex(sig.hsigGeschw, p.zeile);
        if !ersatz && row.None? then Err(RowOutOfRange(p.zeile))
        else
          var speed := if ersatz then 0.0 else row.value;
          var chain := WalkChecked(ctx, sig.koppel, p.zeile, 2, {IdOf(rp)});
          CheckedNeverExhausts(ctx, sig.koppel, p.zeile, 2, {IdOf(rp)});
          if chain.end.Aborted? then Err(chain.end.crash)
          else Ok(Hsig(rp.element.nr, rp.richtung, ersatz, p.zeile, speed, ersatz || speed != 0.0, chain))
  }

  /** The outcome of a main-signal placement of this module whose reference point
      is known: no signal in the placement's direction crashes; so does a row
      outside the signal's rows unless it is a substitute-signal placement;
      otherwise a crash inside the coupling chain crashes the placement, and
      without one the placement is reported with exactly that chain. */
  lemma HsigEntryOutcome(ctx: Context, p: FahrstrSignal)
    ensures !IsForeign(ctx, p.datei) && p.refNr in ctx.refs ==>
      var rp := ctx.refs[p.refNr];
      var sig := SignalAt(rp.element, rp.richtung);
      var r := HsigEntry(ctx, p);
      && (sig.None? ==> r == Err(MissingSignal(rp.element.nr, rp.richtung)))
      && (sig.Some? && p.ersatzsignal != 1 && PyIndex(sig.value.hsigGeschw, p.zeile).None? ==>
            r == Err(RowOutOfRange(p.zeile)))
      && (sig.Some? && (p.ersatzsignal == 1 || PyIndex(sig.value.hsigGeschw, p.zeile).Some?) ==>
            var chain := WalkChecked(ctx, sig.value.koppel, p.zeile, 2, {IdOf(rp)});
            && (chain.end.Aborted? ==> r == Err(chain.end.crash))
            && (!chain.end.Aborted? ==> r.Ok? && r.value.Hsig? && r.value.coupling == chain))
  {
  }

  lemma {:induction false} CheckedNeverExhausts(ctx: Context, k: Option<KoppelSignal>, zeile: int, indent: nat, visited: set<Id>)
    ensures !WalkChecked(ctx, k, zeile, indent, visited).end.FuelExhausted?
    decreases |RefIds(ctx) - visited|
  {
    if k.Some? && !IsForeign(ctx, k.value.datei) && k.value.referenzNr in ctx.refs {
      var rp := ctx.refs[k.value.referenzNr];
      if IdOf(rp) !in visited {
        match SignalAt(rp.element, rp.richtung)
        case None =>
        case Some(sig) =>
          if PyIndex(sig.hsigGeschw, zeile).Some? {
            assert IdOf(rp) in RefIds(ctx);
            VisitShrinks(RefIds(ctx), visited, IdOf(rp));
            CheckedNeverExhausts(ctx, sig.koppel, zeile, indent + 2, visited + {IdOf(rp)});
          }
      }
    }
  }

  /** One main-signal placement, with the coupled signals followed by the loop. */
  method ResolveHsig(ctx: Context, p: FahrstrSignal) returns (r: Result<HsigLine>)
    ensures r == HsigEntry(ctx, p)
  {
    if IsForeign(ctx, p.datei) {
      return Ok(ForeignHsig(p.datei.value));
    }
    if p.refNr !in ctx.refs {
      return Err(UnknownRef(p.refNr));
    }
    var rp := ctx.refs[p.refNr];
    var signal := SignalAt(rp.element, rp.richtung);
    if signal.None? {
      return Err(MissingSignal(rp.element.nr, rp.richtung));
    }
    var ersatz := p.ersatzsignal == 1;
    var speed := 0.0;
    if !ersatz {
      var row := PyIndex(signal.value.hsigGeschw, p.zeile);
      if row.None? {
        return Err(RowOutOfRange(p.zeile));
      }
      speed := row.value;
    }
    var chain := FollowCoupling(ctx, signal.value, p.zeile, IdOf(rp));
    if chain.end.Aborted? {
      return Err(chain.end.crash);
    }
    r := Ok(Hsig(rp.element.nr, rp.richtung, ersatz, p.zeile, speed, ersatz || speed != 0.0, chain));
  }

  /** One distant-signal placement against the route speed `m`: a foreign one is
      only reported, any other one carries the mark exactly when its column's
      speed exceeds `m` under `geschw_kleiner`. */
  function VsigEntry(ctx: Context, p: FahrstrVSignal, m: real): (r: Result<VsigLine>)
    ensures IsForeign(ctx, p.datei) <==> r.Ok? && r.value.ForeignVsig?
    ensures !IsForeign(ctx, p.datei) && p.refNr !in ctx.refs ==> r == Err(UnknownRef(p.refNr))
    ensures r.Ok? && r.value.Vsig? ==>
      && p.refNr in ctx.refs
      && var rp := ctx.refs[p.refNr];
      && r.value.elementNr == rp.element.nr && r.value.richtung == rp.richtung
      && r.value.spalte == p.spalte
      && SignalAt(rp.element, rp.richtung).Some?
      && PyIndex(SignalAt(rp.element, rp.richtung).value.vsigGeschw, p.spalte) == Some(r.value.speed)
      && (r.value.flagged <==> SpeedLess(m, r.value.speed))
  {
    if IsForeign(ctx, p.datei) then Ok(ForeignVsig(p.datei.value))
    else if p.refNr !in ctx.refs then Err(UnknownRef(p.refNr))
    else
      var rp := ctx.refs[p.refNr];
      match SignalAt(rp.element, rp.richtung)
      case None => Err(MissingSignal(rp.element.nr, rp.richtung))
      case Some(sig) =>
        match PyIndex(sig.vsigGeschw, p.spalte)
        case None => Err(ColumnOutOfRange(p.spalte))
        case Some(v) => Ok(Vsig(rp.element.nr, rp.richtung, p.spalte, v, SpeedLess(m, v)))
  }

  /** The outcome of a distant-signal placement of this module whose reference
      point is known: no signal in its direction, or a column outside the
      signal's columns, crashes; otherwise it is reported. Whether it crashes
      does not depend on the route speed. */
  lemma VsigEntryOutcome(ctx: Context, p: FahrstrVSignal, m: real)
    ensures VsigEntry(ctx, p, m).Ok? <==> VsigEntry(ctx, p, -1.0).Ok?
    ensures !IsForeign(ctx, p.datei) && p.refNr in ctx.refs ==>
      var rp := ctx.refs[p.refNr];
      var sig := SignalAt(rp.element, rp.richtung);
      var r := VsigEntry(ctx, p, m);
      && (sig.None? ==> r == Err(MissingSignal(rp.element.nr, rp.richtung)))
      && (sig.Some? && PyIndex(sig.value.vsigGeschw, p.spalte).None? ==> r == Err(ColumnOutOfRange(p.spalte)))
      && (sig.Some? && PyIndex(sig.value.vsigGeschw, p.spalte).Some? ==> r.Ok? && r.value.Vsig?)
  {
  }

  /** The main-signal placements in order, stopping at the first one that crashes. */
  function HsigEntries(ctx: Context, ps: seq<FahrstrSignal>): (r: Result<seq<HsigLine>>)
    ensures r.Ok? ==> |r.value| == |ps|
  {
    if ps == [] then Ok([])
    else
      var front := ps[..|ps| - 1];
      match HsigEntries(ctx, front)
      case Err(c) => Err(c)
      case Ok(ls) =>
        match HsigEntry(ctx, ps[|ps| - 1])
        case Err(c) => Err(c)
        case Ok(l) => Ok(ls + [l])
  }

  /** The distant-signal placements in order, stopping at the first one that crashes. */
  function VsigEntries(ctx: Context, ps: seq<FahrstrVSignal>, m: real): (r: Result<seq<VsigLine>>)
    ensures r.Ok? ==> |r.value| == |ps|
  {
    if ps == [] then Ok([])
    else
      var front := ps[..|ps| - 1];
      match VsigEntries(ctx, front, m)
      case Err(c) => Err(c)
      case Ok(ls) =>
        match VsigEntry(ctx, ps[|ps| - 1], m)
        case Err(c) => Err(c)
        case Ok(l) => Ok(ls + [l])
  }

  /** Without a crash there is one line per placement, in order; a crash is the
      crash of the first placement that fails, all earlier ones succeeding. */
  lemma {:induction false} HsigEntriesMeaning(ctx: Context, ps: seq<FahrstrSignal>)
    ensures var r := HsigEntries(ctx, ps);
      && (r.Ok? ==> |r.value| == |ps| && forall i :: 0 <= i < |ps| ==> HsigEntry(ctx, ps[i]) == Ok(r.value[i]))
      && (r.Err? ==> exists i :: 0 <= i < |ps| && HsigEntry(ctx, ps[i]) == Err(r.crash)
                                && forall j :: 0 <= j < i ==> HsigEntry(ctx, ps[j]).Ok?)
  {
    if ps != [] {
      var front := ps[..|ps| - 1];
      HsigEntriesMeaning(ctx, front);
      assert forall i :: 0 <= i < |front| ==> front[i] == ps[i];
      var r := HsigEntries(ctx, ps);
      match HsigEntries(ctx, front)
      case Err(c) =>
        var i :| 0 <= i < |front| && HsigEntry(ctx, front[i]) == Err(c) && forall j :: 0 <= j < i ==> HsigEntry(ctx, front[j]).Ok?;
        assert HsigEntry(ctx, ps[i]) == Err(r.crash);
      case Ok(ls) =>
        match HsigEntry(ctx, ps[|ps| - 1])
        case Err(c) =>
          assert HsigEntry(ctx, ps[|ps| - 1]) == Err(r.crash);
        case Ok(l) =>
          assert r.value == ls + [l];
    }
  }

  lemma {:induction false} VsigEntriesMeaning(ctx: Context, ps: seq<FahrstrVSignal>, m: real)
    ensures var r := VsigEntries(ctx, ps, m);
      && (r.Ok? ==> |r.value| == |ps| && forall i :: 0 <= i < |ps| ==> VsigEntry(ctx, ps[i], m) == Ok(r.value[i]))
      && (r.Err? ==> exists i :: 0 <= i < |ps| && VsigEntry(ctx, ps[i], m) == Err(r.crash)
                                && forall j :: 0 <= j < i ==> VsigEntry(ctx, ps[j], m).Ok?)
  {
    if ps != [] {
      var front := ps[..|ps| - 1];
      VsigEntriesMeaning(ctx, front, m);
      assert forall i :: 0 <= i < |front| ==> front[i] == ps[i];
      var r := VsigEntries(ctx, ps, m);
      match VsigEntries(ctx, front, m)
      case Err(c) =>
        var i :| 0 <= i < |front| && VsigEntry(ctx, front[i], m) == Err(c) && forall j :: 0 <= j < i ==> VsigEntry(ctx, front[j], m).Ok?;
        assert VsigEntry(ctx, ps[i], m) == Err(r.crash);
      case Ok(ls) =>
        match VsigEntry(ctx, ps[|ps| - 1], m)
        case Err(c) =>
          assert VsigEntry(ctx, ps[|ps| - 1], m) == Err(r.crash);
        case Ok(l) =>
          assert r.value == ls + [l];
    }
  }

  /** The speeds of the main-signal lines that take part in the route speed, in order. */
  function Contributed(ls: seq<HsigLine>): seq<real>
  {
    if ls == [] then []
    else
      var l := ls[|ls| - 1];
      Contributed(ls[..|ls| - 1]) + (if l.Hsig? && l.contributes then [l.speed] else [])
  }

  /** A speed is among the taking-part speeds exactly when some taking-part line has it. */
  lemma {:induction false} ContributedMembers(ls: seq<HsigLine>)
    ensures forall x :: x in Contributed(ls) <==>
      exists i :: 0 <= i < |ls| && ls[i].Hsig? && ls[i].contributes && ls[i].speed == x
  {
    if ls != [] {
      var front := ls[..|ls| - 1];
      ContributedMembers(front);
      assert forall i :: 0 <= i < |front| ==> front[i] == ls[i];
    }
  }

  /** What the script reports for one route, or the crash that ends the run. */
  function RouteSpec(ctx: Context, f: Fahrstrasse): Result<RouteReport>
  {
    match HsigEntries(ctx, f.signals)
    case Err(c) => Err(c)
    case Ok(hs) =>
      var m := FoldMin(-1.0, Contributed(hs));
      match VsigEntries(ctx, f.vsignals, m)
      case Err(c) => Err(c)
      case Ok(vs) => Ok(RouteReport(m, hs, vs))
  }

  /** The parts of a route report: the main-signal lines, the fold over their
      taking-part speeds, and the distant-signal lines checked against it. */
  lemma RouteSpecParts(ctx: Context, f: Fahrstrasse)
    requires RouteSpec(ctx, f).Ok?
    ensures var rep := RouteSpec(ctx, f).value;
      && HsigEntries(ctx, f.signals) == Ok(rep.hsig)
      && rep.minGeschw == FoldMin(-1.0, Contributed(rep.hsig))
      && VsigEntries(ctx, f.vsignals, rep.minGeschw) == Ok(rep.vsig)
      && (forall i :: 0 <= i < |f.signals| ==> HsigEntry(ctx, f.signals[i]) == Ok(rep.hsig[i]))
      && (forall j :: 0 <= j < |f.vsignals| ==> VsigEntry(ctx, f.vsignals[j], rep.minGeschw) == Ok(rep.vsig[j]))
  {
    HsigEntriesMeaning(ctx, f.signals);
    VsigEntriesMeaning(ctx, f.vsignals, RouteSpec(ctx, f).value.minGeschw);
  }

  /** A route is reported exactly when none of its main-signal placements and
      none of its distant-signal placements crashes. */
  lemma RouteSucceedsIff(ctx: Context, f: Fahrstrasse)
    ensures RouteSpec(ctx, f).Ok? <==>
      && (forall i :: 0 <= i < |f.signals| ==> HsigEntry(ctx, f.signals[i]).Ok?)
      && (forall j :: 0 <= j < |f.vsignals| ==> VsigEntry(ctx, f.vsignals[j], -1.0).Ok?)
  {
    HsigEntriesMeaning(ctx, f.signals);
    match HsigEntries(ctx, f.signals)
    case Err(c) =>
    case Ok(hs) =>
      var m := FoldMin(-1.0, Contributed(hs));
      VsigEntriesMeaning(ctx, f.vsignals, m);
      forall j | 0 <= j < |f.vsignals|
        ensures VsigEntry(ctx, f.vsignals[j], m).Ok? <==> VsigEntry(ctx, f.vsignals[j], -1.0).Ok?
      {
        VsigEntryOutcome(ctx, f.vsignals[j], m);
      }
  }

  /** Adding one line to the report extends the taking-part speeds by its speed
      exactly when it takes part. */
  lemma ContributedSnoc(hs: seq<HsigLine>, l: HsigLine)
    ensures Contributed(hs + [l]) == Contributed(hs) + (if l.Hsig? && l.contributes then [l.speed] else [])
  {
    assert (hs + [l])[..|hs|] == hs;
  }

  lemma FoldMinSnoc(acc: real, cs: seq<real>, c: real)
    ensures FoldMin(acc, cs + [c]) == SpeedMin(FoldMin(acc, cs), c)
  {
    assert (cs + [c])[..|cs|] == cs;
  }

  lemma HsigEntriesStep(ctx: Context, ps: seq<FahrstrSignal>, i: nat)
    requires i < |ps| && HsigEntries(ctx, ps[..i]).Ok?
    ensures HsigEntries(ctx, ps[..i + 1]) ==
      match HsigEntry(ctx, ps[i])
      case Err(c) => Err(c)
      case Ok(l) => Ok(HsigEntries(ctx, ps[..i]).value + [l])
  {
    assert ps[..i + 1][..i] == ps[..i];
  }

  /** One step of the main-signal loop keeps `min_geschw` equal to the fold over
      the speeds that took part so far. */
  lemma MinStep(hs: seq<HsigLine>, l: HsigLine, m: real)
    requires m == FoldMin(-1.0, Contributed(hs))
    ensures (if l.Hsig? && l.contributes then SpeedMin(m, l.speed) else m) == FoldMin(-1.0, Contributed(hs + [l]))
  {
    ContributedSnoc(hs, l);
    if l.Hsig? && l.contributes {
      FoldMinSnoc(-1.0, Contributed(hs), l.speed);
    } else {
      assert Contributed(hs) + [] == Contributed(hs);
    }
  }

  /** The main-signal loop: `min_geschw` starts at -1 and is lowered by every
      placement that takes part. */
  method MainSignals(ctx: Context, ps: seq<FahrstrSignal>) returns (r: Result<seq<HsigLine>>, minGeschw: real)
    ensures r == HsigEntries(ctx, ps)
    ensures r.Ok? ==> minGeschw == FoldMin(-1.0, Contributed(r.value))
  {
    minGeschw := -1.0;
    var hs: seq<HsigLine> := [];
    for i := 0 to |ps|
      invariant HsigEntries(ctx, ps[..i]) == Ok(hs)
      invariant minGeschw == FoldMin(-1.0, Contributed(hs))
    {
      var line := ResolveHsig(ctx, ps[i]);
      HsigEntriesStep(ctx, ps, i);
      if line.Err? {
        HsigCrashStops(ctx, ps, i + 1);
        return Err(line.crash), minGeschw;
      }
      MinStep(hs, line.value, minGeschw);
      if line.value.Hsig? && line.value.contributes {
        minGeschw := SpeedMin(minGeschw, line.value.speed);
      }
      hs := hs + [line.value];
    }
    assert ps[..|ps|] == ps;
    r := Ok(hs);
  }

  /** The distant-signal loop: each placement checked against the route speed `m`. */
  method DistantSignals(ctx: Context, ps: seq<FahrstrVSignal>, m: real) returns (r: Result<seq<VsigLine>>)
    ensures r == VsigEntries(ctx, ps, m)
  {
    var vs: seq<VsigLine> := [];
    for i := 0 to |ps|
      invariant VsigEntries(ctx, ps[..i], m) == Ok(vs)
    {
      assert ps[..i + 1][..i] == ps[..i];
      var line := VsigEntry(ctx, ps[i], m);
      if line.Err? {
        VsigCrashStops(ctx, ps, m, i + 1);
        return Err(line.crash);
      }
      vs := vs + [line.value];
    }
    assert ps[..|ps|] == ps;
    r := Ok(vs);
  }

  /** The body of the route loop. */
  method AnalyseRoute(ctx: Context, f: Fahrstrasse) returns (r: Result<RouteReport>)
    ensures r == RouteSpec(ctx, f)
  {
    var hs, minGeschw := MainSignals(ctx, f.signals);
    if hs.Err? {
      return Err(hs.crash);
    }
    var vs := DistantSignals(ctx, f.vsignals, minGeschw);
    if vs.Err? {
      return Err(vs.crash);
    }
    r := Ok(RouteReport(minGeschw, hs.value, vs.value));
  }

  /** Once a prefix of the placements crashes, the whole list crashes the same way. */
  lemma {:induction false} HsigCrashStops(ctx: Context, ps: seq<FahrstrSignal>, n: nat)
    requires n <= |ps| && HsigEntries(ctx, ps[..n]).Err?
    ensures HsigEntries(ctx, ps) == HsigEntries(ctx, ps[..n])
    decreases |ps| - n
  {
    if n < |ps| {
      assert ps[..n + 1][..n] == ps[..n];
      HsigCrashStops(ctx, ps, n + 1);
    } else {
      assert ps[..n] == ps;
    }
  }

  lemma {:induction false} VsigCrashStops(ctx: Context, ps: seq<FahrstrVSignal>, m: real, n: nat)
    requires n <= |ps| && VsigEntries(ctx, ps[..n], m).Err?
    ensures VsigEntries(ctx, ps, m) == VsigEntries(ctx, ps[..n], m)
    decreases |ps| - n
  {
    if n < |ps| {
      assert ps[..n + 1][..n] == ps[..n];
      VsigCrashStops(ctx, ps, m, n + 1);
    } else {
      assert ps[..n] == ps;
    }
  }

  /** The fold over the taking-part speeds of a list of main-signal lines. */
  lemma {:induction false} TightestOfLines(hs: seq<HsigLine>)
    ensures var m := FoldMin(-1.0, Contributed(hs));
      && (Contributed(hs) == [] ==> m == -1.0)
      && (0.0 <= m <==> exists i :: 0 <= i < |hs| && hs[i].Hsig? && hs[i].contributes && 0.0 <= hs[i].speed)
      && (0.0 <= m ==>
            (exists i :: 0 <= i < |hs| && hs[i].Hsig? && hs[i].contributes && hs[i].speed == m)
            && forall i :: 0 <= i < |hs| && hs[i].Hsig? && hs[i].contributes && 0.0 <= hs[i].speed ==> m <= hs[i].speed)
  {
    var m := FoldMin(-1.0, Contributed(hs));
    var cs := Contributed(hs);
    ContributedMembers(hs);
    forall i | 0 <= i < |hs| && hs[i].Hsig? && hs[i].contributes
      ensures hs[i].speed in cs
    {
    }
    if 0.0 <= m {
      var j :| 0 <= j < |cs| && 0.0 <= cs[j];
      assert cs[j] in cs;
    }
  }

  /** The route speed is -1 when no placement takes part; it is finite exactly when
      some taking-part placement has a finite speed, and it is then the least of
      those speeds. */
  lemma RouteSpeedIsTightestPlacement(ctx: Context, f: Fahrstrasse)
    requires RouteSpec(ctx, f).Ok?
    ensures var rep := RouteSpec(ctx, f).value;
      && (Contributed(rep.hsig) == [] ==> rep.minGeschw == -1.0)
      && (0.0 <= rep.minGeschw <==>
            exists i :: 0 <= i < |rep.hsig| && rep.hsig[i].Hsig? && rep.hsig[i].contributes && 0.0 <= rep.hsig[i].speed)
      && (0.0 <= rep.minGeschw ==>
            (exists i :: 0 <= i < |rep.hsig| && rep.hsig[i].Hsig? && rep.hsig[i].contributes && rep.hsig[i].speed == rep.minGeschw)
            && forall i :: 0 <= i < |rep.hsig| && rep.hsig[i].Hsig? && rep.hsig[i].contributes && 0.0 <= rep.hsig[i].speed ==>
                 rep.minGeschw <= rep.hsig[i].speed)
  {
    var rep := RouteSpec(ctx, f).value;
    RouteSpecParts(ctx, f);
    TightestOfLines(rep.hsig);
  }

  /** A distant signal carries the mark exactly when some main-signal placement that
      takes part in the route speed has a finite speed strictly below the distant
      speed (a negative distant speed counting as infinite). */
  lemma FlaggedIffTighterMainSignal(ctx: Context, f: Fahrstrasse)
    requires RouteSpec(ctx, f).Ok?
    ensures var rep := RouteSpec(ctx, f).value;
      forall j :: 0 <= j < |rep.vsig| && rep.vsig[j].Vsig? ==>
        (rep.vsig[j].flagged <==>
           exists i :: 0 <= i < |rep.hsig| && rep.hsig[i].Hsig? && rep.hsig[i].contributes
                       && LimitLess(Reading(rep.hsig[i].speed), Reading(rep.vsig[j].speed)))
  {
    var rep := RouteSpec(ctx, f).value;
    RouteSpecParts(ctx, f);
    RouteSpeedIsTightestPlacement(ctx, f);
    forall j | 0 <= j < |rep.vsig| && rep.vsig[j].Vsig?
      ensures rep.vsig[j].flagged <==>
           exists i :: 0 <= i < |rep.hsig| && rep.hsig[i].Hsig? && rep.hsig[i].contributes
                       && LimitLess(Reading(rep.hsig[i].speed), Reading(rep.vsig[j].speed))
    {
      assert VsigEntry(ctx, f.vsignals[j], rep.minGeschw) == Ok(rep.vsig[j]);
    }
  }

  /** The mark in terms of the two speeds: never while the route speed is still
      -1, and between finite speeds exactly when the route speed is smaller. */
  lemma FlagCases(ctx: Context, f: Fahrstrasse)
    requires RouteSpec(ctx, f).Ok?
    ensures var rep := RouteSpec(ctx, f).value;
      && (rep.minGeschw < 0.0 ==> forall j :: 0 <= j < |rep.vsig| ==> !(rep.vsig[j].Vsig? && rep.vsig[j].flagged))
      && (forall j :: 0 <= j < |rep.vsig| && rep.vsig[j].Vsig? && 0.0 <= rep.minGeschw && 0.0 <= rep.vsig[j].speed ==>
            (rep.vsig[j].flagged <==> rep.minGeschw < rep.vsig[j].speed))
      && (forall j :: 0 <= j < |rep.vsig| ==> (rep.vsig[j].ForeignVsig? <==> IsForeign(ctx, f.vsignals[j].datei)))
  {
    RouteSpecParts(ctx, f);
  }

  /** A main-signal placement in another module never takes part in the route speed. */
  lemma ForeignMainSignalIgnored(ctx: Context, f: Fahrstrasse)
    requires RouteSpec(ctx, f).Ok?
    ensures var rep := RouteSpec(ctx, f).value;
      forall i :: 0 <= i < |rep.hsig| ==>
        (rep.hsig[i].ForeignHsig? <==> IsForeign(ctx, f.signals[i].datei))
        && (IsForeign(ctx, f.signals[i].datei) ==> !(rep.hsig[i].Hsig? && rep.hsig[i].contributes))
  {
    RouteSpecParts(ctx, f);
  }

  /** The whole run over a module: the routes in order until the first crash. */
  datatype Run = Run(reports: seq<RouteReport>, crash: Option<Crash>)

  function RunSpec(ctx: Context, fs: seq<Fahrstrasse>): Run
  {
    if fs == [] then Run([], None)
    else
      var front := fs[..|fs| - 1];
      var prev := RunSpec(ctx, front);
      if prev.crash.Some? then prev
      else match RouteSpec(ctx, fs[|fs| - 1])
        case Err(c) => Run(prev.reports, Some(c))
        case Ok(rep) => Run(prev.reports + [rep], None)
  }

  /** What `RunSpec` says about a run over `fs`. */
  predicate RunMeans(ctx: Context, fs: seq<Fahrstrasse>, r: Run)
  {
    && |r.reports| <= |fs|
    && (forall i :: 0 <= i < |r.reports| ==> RouteSpec(ctx, fs[i]) == Ok(r.reports[i]))
    && (r.crash.None? ==> |r.reports| == |fs|)
    && (r.crash.Some? ==> |r.reports| < |fs| && RouteSpec(ctx, fs[|r.reports|]) == Err(r.crash.value))
  }

  /** Extending the routes keeps an earlier crash. */
  lemma RunMeansAfterCrash(ctx: Context, fs: seq<Fahrstrasse>, r: Run)
    requires fs != [] && r.crash.Some? && RunMeans(ctx, fs[..|fs| - 1], r)
    ensures RunMeans(ctx, fs, r)
  {
    var front := fs[..|fs| - 1];
    assert fs[|r.reports|] == front[|r.reports|];
    forall i | 0 <= i < |r.reports| ensures RouteSpec(ctx, fs[i]) == Ok(r.reports[i]) {
      assert fs[i] == front[i];
    }
  }

  /** A crash of the last route ends a run that had no crash before. */
  lemma RunMeansNewCrash(ctx: Context, fs: seq<Fahrstrasse>, r: Run, c: Crash)
    requires fs != [] && r.crash.None? && RunMeans(ctx, fs[..|fs| - 1], r)
    requires RouteSpec(ctx, fs[|fs| - 1]) == Err(c)
    ensures RunMeans(ctx, fs, Run(r.reports, Some(c)))
  {
    var front := fs[..|fs| - 1];
    forall i | 0 <= i < |r.reports| ensures RouteSpec(ctx, fs[i]) == Ok(r.reports[i]) {
      assert fs[i] == front[i];
    }
  }

  /** A report for the last route extends a run that had no crash. */
  lemma RunMeansNewReport(ctx: Context, fs: seq<Fahrstrasse>, r: Run, rep: RouteReport)
    requires fs != [] && r.crash.None? && RunMeans(ctx, fs[..|fs| - 1], r)
    requires RouteSpec(ctx, fs[|fs| - 1]) == Ok(rep)
    ensures RunMeans(ctx, fs, Run(r.reports + [rep], None))
  {
    var front := fs[..|fs| - 1];
    var reports := r.reports + [rep];
    forall i | 0 <= i < |reports| ensures RouteSpec(ctx, fs[i]) == Ok(reports[i]) {
      if i < |front| {
        assert fs[i] == front[i] && reports[i] == r.reports[i];
      }
    }
  }

  /** Without a crash every route has its report, in order; otherwise the reports
      stop at the first route that crashes, and the run carries that crash. */
  lemma {:induction false} RunSpecMeaning(ctx: Context, fs: seq<Fahrstrasse>)
    ensures var r := RunSpec(ctx, fs);
      && |r.reports| <= |fs|
      && (forall i :: 0 <= i < |r.reports| ==> RouteSpec(ctx, fs[i]) == Ok(r.reports[i]))
      && (r.crash.None? ==> |r.reports| == |fs|)
      && (r.crash.Some? ==> |r.reports| < |fs| && RouteSpec(ctx, fs[|r.reports|]) == Err(r.crash.value))
  {
    if fs != [] {
      var front := fs[..|fs| - 1];
      RunSpecMeaning(ctx, front);
      var prev := RunSpec(ctx, front);
      assert RunMeans(ctx, front, prev);
      if prev.crash.Some? {
        RunMeansAfterCrash(ctx, fs, prev);
      } else {
        match RouteSpec(ctx, fs[|fs| - 1])
        case Err(c) => RunMeansNewCrash(ctx, fs, prev, c);
        case Ok(rep) => RunMeansNewReport(ctx, fs, prev, rep);
      }
      assert RunMeans(ctx, fs, RunSpec(ctx, fs));
    }
  }

  /** The script: build the two tables, then check every route in turn; the first
      crash ends the run. */
  method AnalyseStrecke(s: Strecke) returns (run: Run)
    ensures run == RunSpec(MakeContext(s), s.fahrstrassen)
  {
    var ctx := MakeContext(s);
    var fs := s.fahrstrassen;
    var reports: seq<RouteReport> := [];
    var i := 0;
    while i < |fs|
      invariant 0 <= i <= |fs|
      invariant RunSpec(ctx, fs[..i]) == Run(reports, None)
    {
      RunStep(ctx, fs, i);
      var r := AnalyseRoute(ctx, fs[i]);
      if r.Err? {
        RunCrashStops(ctx, fs, i + 1);
        return Run(reports, Some(r.crash));
      }
      reports := reports + [r.value];
      i := i + 1;
    }
    assert fs[..|fs|] == fs;
    run := Run(reports, None);
  }

  lemma RunStep(ctx: Context, fs: seq<Fahrstrasse>, i: nat)
    requires i < |fs| && RunSpec(ctx, fs[..i]).crash.None?
    ensures RunSpec(ctx, fs[..i + 1]) ==
      match RouteSpec(ctx, fs[i])
      case Err(c) => Run(RunSpec(ctx, fs[..i]).reports, Some(c))
      case Ok(rep) => Run(RunSpec(ctx, fs[..i]).reports + [rep], None)
  {
    assert fs[..i + 1][..i] == fs[..i];
  }

  lemma {:induction false} RunCrashStops(ctx: Context, fs: seq<Fahrstrasse>, n: nat)
    requires n <= |fs| && RunSpec(ctx, fs[..n]).crash.Some?
    ensures RunSpec(ctx, fs) == RunSpec(ctx, fs[..n])
    decreases |fs| - n
  {
    if n < |fs| {
      assert fs[..n + 1][..n] == fs[..n];
      RunCrashStops(ctx, fs, n + 1);
    } else {
      assert fs[..n] == fs;
    }
  }
}
