/** The two lookup tables the script builds before walking the routes: the
    element table keyed by element number and the reference-point table keyed by
    reference number, plus the module test every placement goes through. */
module Index {
  import opened Layout
  import Names

  /** Element `i` is the last one in `es` with its number. */
  predicate LastWithNr(es: seq<StrElement>, i: int)
    requires 0 <= i < |es|
  {
    forall j :: i < j < |es| ==> es[j].nr != es[i].nr
  }

  /** `streckenelemente`: element number to element; of two records with the
      same number the later one wins. */
  function ElementIndex(es: seq<StrElement>): map<int, StrElement>
  {
    if es == [] then map[]
    else ElementIndex(es[..|es| - 1])[es[|es| - 1].nr := es[|es| - 1]]
  }

  /** The table holds exactly the numbers of the records, each under its own number. */
  lemma {:induction false} ElementIndexKeys(es: seq<StrElement>)
    ensures ElementIndex(es).Keys == set e | e in es :: e.nr
    ensures forall k :: k in ElementIndex(es) ==> ElementIndex(es)[k].nr == k && ElementIndex(es)[k] in es
  {
    if es != [] {
      var front := es[..|es| - 1];
      var e := es[|es| - 1];
      ElementIndexKeys(front);
      assert es == front + [e];
      assert (set x | x in es :: x.nr) == (set x | x in front :: x.nr) + {e.nr};
    }
  }

  /** The last record with a given number is the one the table keeps. */
  lemma {:induction false} ElementIndexLastWins(es: seq<StrElement>, i: int)
    requires 0 <= i < |es| && LastWithNr(es, i)
    ensures es[i].nr in ElementIndex(es) && ElementIndex(es)[es[i].nr] == es[i]
  {
    var front := es[..|es| - 1];
    if i < |es| - 1 {
      assert LastWithNr(front, i) by {
        forall j | i < j < |front| ensures front[j].nr != front[i].nr {
          assert front[j] == es[j];
        }
      }
      ElementIndexLastWins(front, i);
    }
  }

  /** `StrNorm == 1` selects the "Norm" direction, anything else "Gegen". */
  function Direction(strNorm: int): (d: Richtung)
    ensures d == Norm <==> strNorm == 1
  {
    if strNorm == 1 then Norm else Gegen
  }

  /** Record `i` names an existing element and no later record that also names
      one has its reference number. */
  predicate LastValidRef(elems: map<int, StrElement>, rs: seq<ReferenzElement>, i: int)
    requires 0 <= i < |rs|
  {
    forall j :: i < j < |rs| && rs[j].strElement in elems ==> rs[j].referenzNr != rs[i].referenzNr
  }

  /** `referenzpunkte`: reference number to the element and direction it names.
      Records whose element is not in the table are dropped before the table is
      built, so they never hide an earlier record with the same number. */
  function RefIndex(elems: map<int, StrElement>, rs: seq<ReferenzElement>): map<int, RefPoint>
  {
    if rs == [] then map[]
    else
      var m := RefIndex(elems, rs[..|rs| - 1]);
      var r := rs[|rs| - 1];
      if r.strElement in elems then m[r.referenzNr := RefPoint(elems[r.strElement], Direction(r.strNorm))]
      else m
  }

  /** Only records naming an existing element get an entry, and every entry holds
      an element of the table. */
  lemma {:induction false} RefIndexKeys(elems: map<int, StrElement>, rs: seq<ReferenzElement>)
    ensures RefIndex(elems, rs).Keys == set r | r in rs && r.strElement in elems :: r.referenzNr
    ensures forall k :: k in RefIndex(elems, rs) ==>
      exists n :: n in elems && RefIndex(elems, rs)[k].element == elems[n]
  {
    if rs != [] {
      var front := rs[..|rs| - 1];
      var r := rs[|rs| - 1];
      RefIndexKeys(elems, front);
      assert rs == front + [r];
      if r.strElement in elems {
        assert (set x | x in rs && x.strElement in elems :: x.referenzNr)
          == (set x | x in front && x.strElement in elems :: x.referenzNr) + {r.referenzNr};
      } else {
        assert (set x | x in rs && x.strElement in elems :: x.referenzNr)
          == (set x | x in front && x.strElement in elems :: x.referenzNr);
      }
    }
  }

  /** The last record with a given number that names an existing element decides
      the entry, with direction "Norm" exactly when its `StrNorm` is 1. */
  lemma {:induction false} RefIndexLastWins(elems: map<int, StrElement>, rs: seq<ReferenzElement>, i: int)
    requires 0 <= i < |rs| && rs[i].strElement in elems && LastValidRef(elems, rs, i)
    ensures rs[i].referenzNr in RefIndex(elems, rs)
    ensures RefIndex(elems, rs)[rs[i].referenzNr] == RefPoint(elems[rs[i].strElement], Direction(rs[i].strNorm))
    ensures RefIndex(elems, rs)[rs[i].referenzNr].richtung == Norm <==> rs[i].strNorm == 1
  {
    var front := rs[..|rs| - 1];
    if i < |rs| - 1 {
      assert LastValidRef(elems, front, i) by {
        forall j | i < j < |front| && front[j].strElement in elems
          ensures front[j].referenzNr != front[i].referenzNr
        {
          assert front[j] == rs[j];
        }
      }
      RefIndexLastWins(elems, front, i);
    }
  }

  /** What the route loop sees of a module: its normalised own name and the two tables. */
  datatype Context = Context(dateiname: string, elems: map<int, StrElement>, refs: map<int, RefPoint>)

  /** Every reference point names the element the element table holds under that
      element's own number, so (number, direction) identifies a signal position. */
  predicate RefsResolve(ctx: Context)
  {
    forall k :: k in ctx.refs ==>
      ctx.refs[k].element.nr in ctx.elems && ctx.elems[ctx.refs[k].element.nr] == ctx.refs[k].element
  }

  function MakeContext(s: Strecke): (ctx: Context)
    ensures RefsResolve(ctx)
    ensures ctx.refs.Keys == set r | r in s.referenzen && r.strElement in ctx.elems :: r.referenzNr
  {
    var elems := ElementIndex(s.elements);
    ElementIndexKeys(s.elements);
    RefIndexKeys(elems, s.referenzen);
    Context(Names.ModuleName(s.dateiname), elems, RefIndex(elems, s.referenzen))
  }

  /** A placement or coupling lies in another module: it names a non-empty file
      whose upper-cased form is not this module's name. */
  predicate IsForeign(ctx: Context, datei: Option<string>)
  {
    datei.Some? && datei.value != "" && Names.Upper(datei.value) != ctx.dateiname
  }

  /** A file named with ".ls3" in any letter case never counts as this module,
      since this module's name has every ".LS3" replaced. */
  lemma Ls3NameIsForeign(s: Strecke, d: string, i: int)
    requires Names.Ls3At(Names.Upper(d), i)
    ensures IsForeign(MakeContext(s), Some(d))
  {
    Names.ReplaceLeavesNoLs3(Names.Upper(s.dateiname), i);
  }

  /** The module test ignores letter case. */
  lemma ForeignIgnoresCase(ctx: Context, d1: string, d2: string)
    requires Names.Upper(d1) == Names.Upper(d2)
    ensures IsForeign(ctx, Some(d1)) <==> IsForeign(ctx, Some(d2))
  {
  }
}
