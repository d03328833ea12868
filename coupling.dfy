/** Following a main signal's chain of coupled signals ("KoppelSignal"): each
    coupled signal is shown on the main signal's row, one indentation step deeper
    than the previous one. */
module Coupling {
  import opened Layout
  import opened Index

  /** A signal position: element number and direction. */
  type Id = (int, Richtung)

  function IdOf(rp: RefPoint): Id
  {
    (rp.element.nr, rp.richtung)
  }

  /** One reported coupled signal, with the indentation of its report line. */
  datatype CouplingLine = CouplingLine(indent: nat, elementNr: int, richtung: Richtung, zeile: int, speed: real)

  /** Why the walk stopped. */
  datatype ChainEnd =
    | NoCoupling                       // the last signal has no `KoppelSignal`
    | ForeignCoupling(dateiname: string) // the coupling names another module
    | InvalidReference(indent: nat)    // its `ReferenzNr` is not a reference point
    | CircularReference(indent: nat)   // the coupling leads back to a signal already shown
    | Aborted(crash: Crash)            // a lookup the script does not guard failed
    | FuelExhausted                    // the bound on the number of steps was reached

  datatype Chain = Chain(lines: seq<CouplingLine>, end: ChainEnd)

  function LineId(l: CouplingLine): Id
  {
    (l.elementNr, l.richtung)
  }

  function Prepend(l: CouplingLine, c: Chain): Chain
  {
    Chain([l] + c.lines, c.end)
  }

  /** The lines already reported, followed by the rest of the walk. */
  function Append(lines: seq<CouplingLine>, c: Chain): Chain
  {
    Chain(lines + c.lines, c.end)
  }

  lemma AppendPrepend(lines: seq<CouplingLine>, l: CouplingLine, c: Chain)
    ensures Append(lines, Prepend(l, c)) == Append(lines + [l], c)
  {
    assert lines + [l] + c.lines == lines + ([l] + c.lines);
  }

  /** The walk as the script writes it, bounded by `fuel` steps. `alt` is the
      position the cycle test compares with; the script sets it once to "nothing"
      and never updates it. */
  function Walk(ctx: Context, k: Option<KoppelSignal>, zeile: int, indent: nat, alt: Option<Id>, fuel: nat): Chain
    decreases fuel
  {
    if k.None? then Chain([], NoCoupling)
    else if fuel == 0 then Chain([], FuelExhausted)
    else if IsForeign(ctx, k.value.datei) then Chain([], ForeignCoupling(k.value.datei.value))
    else if k.value.referenzNr !in ctx.refs then Chain([], InvalidReference(indent))
    else
      var rp := ctx.refs[k.value.referenzNr];
      if Some(IdOf(rp)) == alt then Chain([], CircularReference(indent))
      else match SignalAt(rp.element, rp.richtung)
        case None => Chain([], Aborted(MissingSignal(rp.element.nr, rp.richtung)))
        case Some(sig) =>
          match PyIndex(sig.hsigGeschw, zeile)
          case None => Chain([], Aborted(RowOutOfRange(zeile)))
          case Some(v) =>
            Prepend(CouplingLine(indent, rp.element.nr, rp.richtung, zeile, v),
                    Walk(ctx, sig.koppel, zeile, indent + 2, alt, fuel - 1))
  }

  /** The `while ksig is not None` loop of the script, run for at most `fuel` steps. */
  method FollowCouplingAsWritten(ctx: Context, signal: Signal, zeile: int, fuel: nat) returns (chain: Chain)
    ensures chain == Walk(ctx, signal.koppel, zeile, 2, None, fuel)
  {
    var ksig := signal.koppel;
    var alt: Option<Id> := None;
    var indent: nat := 2;
    var lines: seq<CouplingLine> := [];
    var left := fuel;
    var end := NoCoupling;
    while ksig.Some?
      invariant alt == None && end == NoCoupling
      invariant Walk(ctx, signal.koppel, zeile, 2, None, fuel) == Append(lines, Walk(ctx, ksig, zeile, indent, alt, left))
      decreases left
    {
      if left == 0 {
        end := FuelExhausted;
        break;
      }
      var k := ksig.value;
      if IsForeign(ctx, k.datei) {
        end := ForeignCoupling(k.datei.value);
        break;
      }
      if k.referenzNr !in ctx.refs {
        end := InvalidReference(indent);
        break;
      }
      var rp := ctx.refs[k.referenzNr];
      if Some(IdOf(rp)) == alt {
        // the test compares with the never-updated `alt`, so it cannot succeed
        assert false;
        end := CircularReference(indent);
        break;
      }
      var sig := SignalAt(rp.element, rp.richtung);
      if sig.None? {
        end := Aborted(MissingSignal(rp.element.nr, rp.richtung));
        break;
      }
      var row := PyIndex(sig.value.hsigGeschw, zeile);
      if row.None? {
        end := Aborted(RowOutOfRange(zeile));
        break;
      }
      var line := CouplingLine(indent, rp.element.nr, rp.richtung, zeile, row.value);
      AppendPrepend(lines, line, Walk(ctx, sig.value.koppel, zeile, indent + 2, alt, left - 1));
      lines := lines + [line];
      indent := indent + 2;
      ksig := sig.value.koppel;
      left := left - 1;
    }
    chain := Chain(lines, end);
  }

  /** The script's cycle test never fires. */
  lemma {:induction false} AsWrittenNeverCircular(ctx: Context, k: Option<KoppelSignal>, zeile: int, indent: nat, fuel: nat)
    ensures !Walk(ctx, k, zeile, indent, None, fuel).end.CircularReference?
    decreases fuel
  {
    if k.Some? && fuel > 0 && !IsForeign(ctx, k.value.datei) && k.value.referenzNr in ctx.refs {
      var rp := ctx.refs[k.value.referenzNr];
      match SignalAt(rp.element, rp.richtung)
      case None =>
      case Some(sig) =>
        AsWrittenNeverCircular(ctx, sig.koppel, zeile, indent + 2, fuel - 1);
    }
  }

  /** The i-th coupled signal is indented by 2 * i more than the first, all are
      shown on the main signal's row, and an invalid reference is reported one
      step below the last line. */
  lemma {:induction false} WalkIndents(ctx: Context, k: Option<KoppelSignal>, zeile: int, indent: nat, alt: Option<Id>, fuel: nat)
    ensures var c := Walk(ctx, k, zeile, indent, alt, fuel);
      && (forall i :: 0 <= i < |c.lines| ==> c.lines[i].indent == indent + 2 * i && c.lines[i].zeile == zeile)
      && (c.end.InvalidReference? ==> c.end.indent == indent + 2 * |c.lines|)
    decreases fuel
  {
    if k.Some? && fuel > 0 && !IsForeign(ctx, k.value.datei) && k.value.referenzNr in ctx.refs {
      var rp := ctx.refs[k.value.referenzNr];
      if Some(IdOf(rp)) != alt {
        match SignalAt(rp.element, rp.richtung)
        case None =>
        case Some(sig) =>
          WalkIndents(ctx, sig.koppel, zeile, indent + 2, alt, fuel - 1);
      }
    }
  }

  /** The step bound only matters for a walk that runs out of it: any walk that
      stops on its own gives the same report with more steps allowed. */
  lemma {:induction false} WalkFuelSuffices(ctx: Context, k: Option<KoppelSignal>, zeile: int, indent: nat, alt: Option<Id>, fuel: nat, more: nat)
    requires fuel <= more
    requires Walk(ctx, k, zeile, indent, alt, fuel).end != FuelExhausted
    ensures Walk(ctx, k, zeile, indent, alt, more) == Walk(ctx, k, zeile, indent, alt, fuel)
    decreases fuel
  {
    if k.Some? && !IsForeign(ctx, k.value.datei) && k.value.referenzNr in ctx.refs {
      var rp := ctx.refs[k.value.referenzNr];
      if Some(IdOf(rp)) != alt {
        match SignalAt(rp.element, rp.richtung)
        case None =>
        case Some(sig) =>
          if PyIndex(sig.hsigGeschw, zeile).Some? {
            WalkFuelSuffices(ctx, sig.koppel, zeile, indent + 2, alt, fuel - 1, more - 1);
          }
      }
    }
  }

  /** Coupling `q` is followed without stopping, to a next coupling in `ks`. */
  predicate StepsWithin(ctx: Context, q: KoppelSignal, zeile: int, ks: set<KoppelSignal>)
  {
    && !IsForeign(ctx, q.datei)
    && q.referenzNr in ctx.refs
    && var rp := ctx.refs[q.referenzNr];
    && SignalAt(rp.element, rp.richtung).Some?
    && var sig := SignalAt(rp.element, rp.richtung).value;
    && PyIndex(sig.hsigGeschw, zeile).Some?
    && sig.koppel.Some?
    && sig.koppel.value in ks
  }

  /** The couplings in `ks` lead into each other: a cyclic chain. */
  predicate Cyclic(ctx: Context, ks: set<KoppelSignal>, zeile: int)
  {
    forall q :: q in ks ==> StepsWithin(ctx, q, zeile, ks)
  }

  /** On a cyclic chain the walk as written never stops on its own: whatever the
      bound, it reports one coupled signal per step until the bound is used up. */
  lemma {:induction false} CycleExhaustsFuel(ctx: Context, ks: set<KoppelSignal>, k: Option<KoppelSignal>, zeile: int, indent: nat, fuel: nat)
    requires Cyclic(ctx, ks, zeile) && k.Some? && k.value in ks
    ensures Walk(ctx, k, zeile, indent, None, fuel).end == FuelExhausted
    ensures |Walk(ctx, k, zeile, indent, None, fuel).lines| == fuel
    decreases fuel
  {
    if fuel > 0 {
      assert StepsWithin(ctx, k.value, zeile, ks);
      var rp := ctx.refs[k.value.referenzNr];
      var sig := SignalAt(rp.element, rp.richtung).value;
      CycleExhaustsFuel(ctx, ks, sig.koppel, zeile, indent + 2, fuel - 1);
    }
  }

  /** All signal positions the reference points can name. */
  function RefIds(ctx: Context): set<Id>
  {
    set n | n in ctx.refs :: IdOf(ctx.refs[n])
  }

  lemma VisitShrinks(all: set<Id>, visited: set<Id>, id: Id)
    requires id in all && id !in visited
    ensures |all - (visited + {id})| < |all - visited|
  {
    assert all - (visited + {id}) == (all - visited) - {id};
  }

  /** The walk with a working cycle test: it stops as soon as a coupling leads to
      a position in `visited`, and adds every position it shows to `visited`. */
  function WalkChecked(ctx: Context, k: Option<KoppelSignal>, zeile: int, indent: nat, visited: set<Id>): Chain
    decreases |RefIds(ctx) - visited|
  {
    if k.None? then Chain([], NoCoupling)
    else if IsForeign(ctx, k.value.datei) then Chain([], ForeignCoupling(k.value.datei.value))
    else if k.value.referenzNr !in ctx.refs then Chain([], InvalidReference(indent))
    else
      var rp := ctx.refs[k.value.referenzNr];
      if IdOf(rp) in visited then Chain([], CircularReference(indent))
      else match SignalAt(rp.element, rp.richtung)
        case None => Chain([], Aborted(MissingSignal(rp.element.nr, rp.richtung)))
        case Some(sig) =>
          match PyIndex(sig.hsigGeschw, zeile)
          case None => Chain([], Aborted(RowOutOfRange(zeile)))
          case Some(v) =>
            assert IdOf(rp) in RefIds(ctx);
            VisitShrinks(RefIds(ctx), visited, IdOf(rp));
            Prepend(CouplingLine(indent, rp.element.nr, rp.richtung, zeile, v),
                    WalkChecked(ctx, sig.koppel, zeile, indent + 2, visited + {IdOf(rp)}))
  }

  /** One step of the checked walk past a coupled signal it shows. */
  lemma CheckedStep(ctx: Context, k: KoppelSignal, zeile: int, indent: nat, visited: set<Id>, sig: Signal, v: real)
    requires !IsForeign(ctx, k.datei) && k.referenzNr in ctx.refs
    requires IdOf(ctx.refs[k.referenzNr]) !in visited
    requires SignalAt(ctx.refs[k.referenzNr].element, ctx.refs[k.referenzNr].richtung) == Some(sig)
    requires PyIndex(sig.hsigGeschw, zeile) == Some(v)
    ensures var rp := ctx.refs[k.referenzNr];
      && |RefIds(ctx) - (visited + {IdOf(rp)})| < |RefIds(ctx) - visited|
      && WalkChecked(ctx, Some(k), zeile, indent, visited)
         == Prepend(CouplingLine(indent, rp.element.nr, rp.richtung, zeile, v),
                    WalkChecked(ctx, sig.koppel, zeile, indent + 2, visited + {IdOf(rp)}))
  {
    var rp := ctx.refs[k.referenzNr];
    assert IdOf(rp) in RefIds(ctx);
    VisitShrinks(RefIds(ctx), visited, IdOf(rp));
  }

  /** The coupling loop with a working cycle test; `self` is the position of the
      main signal the chain starts from. */
  method FollowCoupling(ctx: Context, signal: Signal, zeile: int, self: Id) returns (chain: Chain)
    ensures chain == WalkChecked(ctx, signal.koppel, zeile, 2, {self})
  {
    var ksig := signal.koppel;
    var visited: set<Id> := {self};
    var indent: nat := 2;
    var lines: seq<CouplingLine> := [];
    var end := NoCoupling;
    while ksig.Some?
      invariant end == NoCoupling
      invariant WalkChecked(ctx, signal.koppel, zeile, 2, {self}) == Append(lines, WalkChecked(ctx, ksig, zeile, indent, visited))
      decreases |RefIds(ctx) - visited|
    {
      var k := ksig.value;
      if IsForeign(ctx, k.datei) {
        end := ForeignCoupling(k.datei.value);
        break;
      }
      if k.referenzNr !in ctx.refs {
        end := InvalidReference(indent);
        break;
      }
      var rp := ctx.refs[k.referenzNr];
      if IdOf(rp) in visited {
        end := CircularReference(indent);
        break;
      }
      var sig := SignalAt(rp.element, rp.richtung);
      if sig.None? {
        end := Aborted(MissingSignal(rp.element.nr, rp.richtung));
        break;
      }
      var row := PyIndex(sig.value.hsigGeschw, zeile);
      if row.None? {
        end := Aborted(RowOutOfRange(zeile));
        break;
      }
      var line := CouplingLine(indent, rp.element.nr, rp.richtung, zeile, row.value);
      CheckedStep(ctx, k, zeile, indent, visited, sig.value, row.value);
      AppendPrepend(lines, line, WalkChecked(ctx, sig.value.koppel, zeile, indent + 2, visited + {IdOf(rp)}));
      lines := lines + [line];
      indent := indent + 2;
      ksig := sig.value.koppel;
      visited := visited + {IdOf(rp)};
    }
    chain := Chain(lines, end);
  }

  /** No reported position lies in `visited`, and no position is reported twice. */
  predicate FreshAndDistinct(c: Chain, visited: set<Id>)
  {
    && (forall i :: 0 <= i < |c.lines| ==> LineId(c.lines[i]) !in visited)
    && (forall i, j :: 0 <= i < j < |c.lines| ==> LineId(c.lines[i]) != LineId(c.lines[j]))
  }

  lemma PrependFresh(l: CouplingLine, rest: Chain, visited: set<Id>)
    requires LineId(l) !in visited && FreshAndDistinct(rest, visited + {LineId(l)})
    ensures FreshAndDistinct(Prepend(l, rest), visited)
  {
    var c := Prepend(l, rest);
    assert forall i :: 1 <= i < |c.lines| ==> c.lines[i] == rest.lines[i - 1];
    forall i | 0 <= i < |c.lines| ensures LineId(c.lines[i]) !in visited {
      if i > 0 { assert LineId(rest.lines[i - 1]) !in visited + {LineId(l)}; }
    }
    forall i, j | 0 <= i < j < |c.lines| ensures LineId(c.lines[i]) != LineId(c.lines[j]) {
      assert LineId(rest.lines[j - 1]) !in visited + {LineId(l)};
      if i > 0 { assert LineId(rest.lines[i - 1]) != LineId(rest.lines[j - 1]); }
    }
  }

  /** The checked walk shows every position at most once and never one it was
      told to treat as already shown. */
  lemma {:induction false} CheckedNeverRevisits(ctx: Context, k: Option<KoppelSignal>, zeile: int, indent: nat, visited: set<Id>)
    ensures forall i :: 0 <= i < |WalkChecked(ctx, k, zeile, indent, visited).lines| ==>
      LineId(WalkChecked(ctx, k, zeile, indent, visited).lines[i]) !in visited
    ensures forall i, j :: 0 <= i < j < |WalkChecked(ctx, k, zeile, indent, visited).lines| ==>
      LineId(WalkChecked(ctx, k, zeile, indent, visited).lines[i]) != LineId(WalkChecked(ctx, k, zeile, indent, visited).lines[j])
    decreases |RefIds(ctx) - visited|
  {
    if k.Some? && !IsForeign(ctx, k.value.datei) && k.value.referenzNr in ctx.refs {
      var rp := ctx.refs[k.value.referenzNr];
      if IdOf(rp) !in visited {
        match SignalAt(rp.element, rp.richtung)
        case None =>
        case Some(sig) =>
          if PyIndex(sig.hsigGeschw, zeile).Some? {
            assert IdOf(rp) in RefIds(ctx);
            VisitShrinks(RefIds(ctx), visited, IdOf(rp));
            var l := CouplingLine(indent, rp.element.nr, rp.richtung, zeile, PyIndex(sig.hsigGeschw, zeile).value);
            var rest := WalkChecked(ctx, sig.koppel, zeile, indent + 2, visited + {IdOf(rp)});
            CheckedNeverRevisits(ctx, sig.koppel, zeile, indent + 2, visited + {IdOf(rp)});
            assert FreshAndDistinct(rest, visited + {LineId(l)});
            PrependFresh(l, rest, visited);
            assert WalkChecked(ctx, k, zeile, indent, visited) == Prepend(l, rest);
          }
      }
    }
  }

  /** On a cyclic chain the checked walk stops with a circular-reference report. */
  lemma {:induction false} CheckedDetectsCycle(ctx: Context, ks: set<KoppelSignal>, k: Option<KoppelSignal>, zeile: int, indent: nat, visited: set<Id>)
    requires Cyclic(ctx, ks, zeile) && k.Some? && k.value in ks
    ensures WalkChecked(ctx, k, zeile, indent, visited).end.CircularReference?
    decreases |RefIds(ctx) - visited|
  {
    assert StepsWithin(ctx, k.value, zeile, ks);
    var rp := ctx.refs[k.value.referenzNr];
    if IdOf(rp) !in visited {
      var sig := SignalAt(rp.element, rp.richtung).value;
      assert IdOf(rp) in RefIds(ctx);
      VisitShrinks(RefIds(ctx), visited, IdOf(rp));
      CheckedDetectsCycle(ctx, ks, sig.koppel, zeile, indent + 2, visited + {IdOf(rp)});
    }
  }

  /** Where the script's walk ends normally without showing a position twice or
      one already shown, the checked walk gives the same report. */
  lemma {:induction false} CheckedAgreesWithoutRepeat(ctx: Context, k: Option<KoppelSignal>, zeile: int, indent: nat, visited: set<Id>, fuel: nat)
    requires var c := Walk(ctx, k, zeile, indent, None, fuel);
      && (c.end.NoCoupling? || c.end.ForeignCoupling? || c.end.InvalidReference?)
      && (forall i :: 0 <= i < |c.lines| ==> LineId(c.lines[i]) !in visited)
      && (forall i, j :: 0 <= i < j < |c.lines| ==> LineId(c.lines[i]) != LineId(c.lines[j]))
    ensures WalkChecked(ctx, k, zeile, indent, visited) == Walk(ctx, k, zeile, indent, None, fuel)
    decreases fuel
  {
    var c := Walk(ctx, k, zeile, indent, None, fuel);
    if k.Some? && fuel > 0 && !IsForeign(ctx, k.value.datei) && k.value.referenzNr in ctx.refs {
      var rp := ctx.refs[k.value.referenzNr];
      var sig := SignalAt(rp.element, rp.richtung).value;
      var v := PyIndex(sig.hsigGeschw, zeile).value;
      var rest := Walk(ctx, sig.koppel, zeile, indent + 2, None, fuel - 1);
      assert c.lines == [CouplingLine(indent, rp.element.nr, rp.richtung, zeile, v)] + rest.lines;
      assert LineId(c.lines[0]) == IdOf(rp);
      forall i | 0 <= i < |rest.lines| ensures LineId(rest.lines[i]) !in visited + {IdOf(rp)} {
        assert rest.lines[i] == c.lines[i + 1];
      }
      forall i, j | 0 <= i < j < |rest.lines| ensures LineId(rest.lines[i]) != LineId(rest.lines[j]) {
        assert rest.lines[i] == c.lines[i + 1] && rest.lines[j] == c.lines[j + 1];
      }
      CheckedAgreesWithoutRepeat(ctx, sig.koppel, zeile, indent + 2, visited + {IdOf(rp)}, fuel - 1);
    }
  }
}
