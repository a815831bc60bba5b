/**
 Per-name occurrence lists: for every symbol name, the spans where it is
 declared, defined and used.
 */
module UseDef {
  import opened Tokens

  datatype UseDefKind = Decl | Def | Use

  datatype UseDefList = UseDefList(decls: seq<Span>, defs: seq<Span>, uses: seq<Span>) {

    /** The list selected by `ud`. */
    function Get(ud: UseDefKind): (r: seq<Span>)
      ensures ud.Decl? ==> r == decls
      ensures ud.Def? ==> r == defs
      ensures ud.Use? ==> r == uses
      ensures forall s :: s in r ==> Has(s)
    {
      match ud
      case Decl => decls
      case Def => defs
      case Use => uses
    }

    /** Whether `s` is in any of the three lists. */
    predicate Has(s: Span) {
      s in decls || s in defs || s in uses
    }

    /** Appends `s` to the list selected by `ud`; the other two stay as they are. */
    function Push(ud: UseDefKind, s: Span): (r: UseDefList)
      ensures r.Get(ud) == Get(ud) + [s]
      ensures forall other :: other != ud ==> r.Get(other) == Get(other)
    {
      match ud
      case Decl => this.(decls := decls + [s])
      case Def => this.(defs := defs + [s])
      case Use => this.(uses := uses + [s])
    }

    /** All spans of the three lists together, with multiplicity. */
    ghost function Occurrences(): multiset<Span> {
      multiset(decls) + multiset(defs) + multiset(uses)
    }

    /** A span occurs at most once across the three lists combined. */
    ghost predicate Unique() {
      forall s :: Occurrences()[s] <= 1
    }

    /** Each list of `this` is a prefix of the matching list of `other`. */
    predicate GrowsTo(other: UseDefList) {
      decls <= other.decls && defs <= other.defs && uses <= other.uses
    }
  }

  const Empty := UseDefList([], [], [])

  /** A symbol table of one category: name to occurrence lists. */
  type Table = map<string, UseDefList>

  /** The lists of `name`, or empty lists when the name is not in the table. */
  function Lookup(t: Table, name: string): UseDefList {
    if name in t then t[name] else Empty
  }

  /** `s` is recorded for `name`, in any of its three lists. */
  predicate Recorded(t: Table, name: string, s: Span) {
    name in t && t[name].Has(s)
  }

  ghost predicate TableUnique(t: Table) {
    forall n :: n in t ==> t[n].Unique()
  }

  /** Every name of `a` is in `b`, with lists that extend those of `a`. */
  ghost predicate TableGrows(a: Table, b: Table) {
    forall n :: n in a ==> n in b && a[n].GrowsTo(b[n])
  }

  /** Appending a span that is not yet recorded keeps the at-most-once property. */
  lemma PushKeepsUnique(l: UseDefList, ud: UseDefKind, s: Span)
    requires l.Unique() && !l.Has(s)
    ensures l.Push(ud, s).Unique()
    ensures l.Push(ud, s).Occurrences() == l.Occurrences() + multiset{s}
  {
    var r := l.Push(ud, s);
    assert r.Occurrences() == l.Occurrences() + multiset{s} by {
      match ud
      case Decl => assert r.decls == l.decls + [s];
      case Def => assert r.defs == l.defs + [s];
      case Use => assert r.uses == l.uses + [s];
    }
    assert l.Occurrences()[s] == 0;
  }

  lemma TableGrowsTransitive(a: Table, b: Table, c: Table)
    requires TableGrows(a, b) && TableGrows(b, c)
    ensures TableGrows(a, c)
  {
  }

  /** One occurrence to record: a name, the span where it occurs, and its kind. */
  datatype Occurrence = Occurrence(name: string, span: Span, ud: UseDefKind)

  /** What recording `o` does to a table: a span already recorded for the
      name, in any of its lists, changes nothing; otherwise it is appended
      to the list of its kind. */
  function Add(t: Table, o: Occurrence): (r: Table)
    ensures o.name in r && Recorded(r, o.name, o.span)
    ensures forall n :: n != o.name ==> (n in r <==> n in t)
    ensures forall n :: n != o.name && n in t ==> r[n] == t[n]
    ensures Recorded(t, o.name, o.span) ==> r == t
    ensures !Recorded(t, o.name, o.span) ==> r[o.name] == Lookup(t, o.name).Push(o.ud, o.span)
    ensures TableGrows(t, r)
  {
    var e := Lookup(t, o.name);
    if e.Has(o.span) then t else t[o.name := e.Push(o.ud, o.span)]
  }

  /** Records the occurrences one after the other. */
  function AddAll(t: Table, occs: seq<Occurrence>): (r: Table)
    decreases |occs|
  {
    if occs == [] then t else AddAll(Add(t, occs[0]), occs[1..])
  }

  /** Recording no occurrence changes nothing; recording one is `Add`. */
  lemma AddAllOne(t: Table, o: Occurrence)
    ensures AddAll(t, []) == t
    ensures AddAll(t, [o]) == Add(t, o)
  {
    assert [o][1..] == [];
  }

  lemma {:induction false} AddAllAppend(t: Table, a: seq<Occurrence>, b: seq<Occurrence>)
    ensures AddAll(t, a + b) == AddAll(AddAll(t, a), b)
    decreases |a|
  {
    if a != [] {
      assert (a + b)[0] == a[0];
      assert (a + b)[1..] == a[1..] + b;
      AddAllAppend(Add(t, a[0]), a[1..], b);
    } else {
      assert a + b == b;
    }
  }

  /** Recording loses nothing: every list only grows. */
  lemma {:induction false} AddAllGrows(t: Table, occs: seq<Occurrence>)
    ensures TableGrows(t, AddAll(t, occs))
    decreases |occs|
  {
    if occs != [] {
      AddAllGrows(Add(t, occs[0]), occs[1..]);
      TableGrowsTransitive(t, Add(t, occs[0]), AddAll(t, occs));
    }
  }

  /** A span in a list of a name stays in that list when the table grows. */
  lemma InListGrows(a: Table, b: Table, n: string, ud: UseDefKind, s: Span)
    requires TableGrows(a, b) && n in a && s in a[n].Get(ud)
    ensures n in b && s in b[n].Get(ud)
  {
    assert a[n].GrowsTo(b[n]);
    match ud
    case Decl => assert a[n].decls <= b[n].decls;
    case Def => assert a[n].defs <= b[n].defs;
    case Use => assert a[n].uses <= b[n].uses;
  }

  /** The first occurrence of a name and span decides its list: each
      occurrence ends up in the list of its own kind, unless its span was
      recorded for that name before, in the table or by an earlier
      occurrence. */
  lemma {:induction false} AddAllFirstWins(t: Table, occs: seq<Occurrence>)
    ensures forall i :: 0 <= i < |occs| ==>
      && occs[i].name in AddAll(t, occs)
      && (|| occs[i].span in AddAll(t, occs)[occs[i].name].Get(occs[i].ud)
          || Recorded(t, occs[i].name, occs[i].span)
          || exists k :: 0 <= k < i && occs[k].name == occs[i].name && occs[k].span == occs[i].span)
    decreases |occs|
  {
    if occs != [] {
      var o := occs[0];
      var t1 := Add(t, o);
      var r := AddAll(t, occs);
      assert r == AddAll(t1, occs[1..]);
      AddAllGrows(t1, occs[1..]);
      AddAllFirstWins(t1, occs[1..]);
      if !Recorded(t, o.name, o.span) {
        assert o.span in t1[o.name].Get(o.ud);
        InListGrows(t1, r, o.name, o.ud, o.span);
      } else {
        assert t1 == t;
        RecordedGrows(t, r, o.name, o.span);
      }
      forall i | 1 <= i < |occs|
        ensures || occs[i].span in r[occs[i].name].Get(occs[i].ud)
                || Recorded(t, occs[i].name, occs[i].span)
                || exists k :: 0 <= k < i && occs[k].name == occs[i].name && occs[k].span == occs[i].span
      {
        var p := occs[i];
        assert p == occs[1..][i - 1];
        if Recorded(t1, p.name, p.span) && !Recorded(t, p.name, p.span) {
          AddRecordedOnly(t, o, p.name, p.span);
          assert occs[0].name == p.name && occs[0].span == p.span;
        }
        if exists k :: 0 <= k < i - 1 && occs[1..][k].name == p.name && occs[1..][k].span == p.span {
          var k :| 0 <= k < i - 1 && occs[1..][k].name == p.name && occs[1..][k].span == p.span;
          assert occs[k + 1] == occs[1..][k];
        }
      }
    }
  }

  /** A span recorded after `Add` was recorded before, or is the one added. */
  lemma AddRecordedOnly(t: Table, o: Occurrence, n: string, s: Span)
    requires Recorded(Add(t, o), n, s)
    ensures Recorded(t, n, s) || (n == o.name && s == o.span)
  {
    if n == o.name && !Recorded(t, n, s) && !Recorded(t, o.name, o.span) {
      var l := Lookup(t, o.name);
      assert Add(t, o)[n] == l.Push(o.ud, o.span);
      match o.ud
      case Decl =>
      case Def =>
      case Use =>
    }
  }

  /** A span in a list after `Add` was in that list before, or is exactly
      the added occurrence. */
  lemma AddOnly(t: Table, o: Occurrence, n: string, ud: UseDefKind, s: Span)
    requires n in Add(t, o) && s in Add(t, o)[n].Get(ud)
    ensures s in Lookup(t, n).Get(ud) || o == Occurrence(n, s, ud)
  {
    if n == o.name && !Recorded(t, o.name, o.span) {
      var l := Lookup(t, o.name);
      assert Add(t, o)[n] == l.Push(o.ud, o.span);
      if ud != o.ud {
        assert Add(t, o)[n].Get(ud) == l.Get(ud);
      }
    }
  }

  /** Nothing else is recorded: a span in a list of a name after recording
      was there before, or one of the occurrences is exactly that name,
      span and kind. */
  lemma {:induction false} AddAllOnly(t: Table, occs: seq<Occurrence>, n: string, ud: UseDefKind, s: Span)
    requires n in AddAll(t, occs) && s in AddAll(t, occs)[n].Get(ud)
    ensures s in Lookup(t, n).Get(ud) || exists i :: 0 <= i < |occs| && occs[i] == Occurrence(n, s, ud)
    decreases |occs|
  {
    if occs != [] {
      var t1 := Add(t, occs[0]);
      AddAllOnly(t1, occs[1..], n, ud, s);
      if s in Lookup(t1, n).Get(ud) {
        AddOnly(t, occs[0], n, ud, s);
      } else {
        var i :| 0 <= i < |occs[1..]| && occs[1..][i] == Occurrence(n, s, ud);
        assert occs[i + 1] == occs[1..][i];
      }
    }
  }

  /** The names of a table after recording: those it had and those of the occurrences. */
  lemma {:induction false} AddAllNames(t: Table, occs: seq<Occurrence>)
    ensures AddAll(t, occs).Keys == t.Keys + set o | o in occs :: o.name
    decreases |occs|
  {
    if occs != [] {
      AddAllNames(Add(t, occs[0]), occs[1..]);
      assert occs == [occs[0]] + occs[1..];
      assert (set o | o in occs :: o.name) == {occs[0].name} + set o | o in occs[1..] :: o.name;
    }
  }

  /** A recorded span stays recorded in a table that grows. */
  lemma RecordedGrows(a: Table, b: Table, name: string, s: Span)
    requires TableGrows(a, b) && Recorded(a, name, s)
    ensures Recorded(b, name, s)
  {
    assert a[name].GrowsTo(b[name]);
    if s in a[name].decls {
      assert a[name].decls <= b[name].decls;
    } else if s in a[name].defs {
      assert a[name].defs <= b[name].defs;
    } else {
      assert a[name].uses <= b[name].uses;
    }
  }
}
