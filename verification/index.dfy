/**
 The symbol index: global tables, one scope per function body, and the
 reverse index from start offset to occurrence. This module holds the
 insertion primitives and the position lookup; the two-pass construction
 is in module `Builder`.
 */
module Index {
  import opened Tokens
  import opened UseDef
  import Syntax
  import OrderedMap

  datatype SymbolKind = GlobalVar | Function | DbgAnnotation | Label | LocalVar {
    /** The categories kept in the global tables; the others live in a function's scope. */
    predicate IsGlobal() {
      GlobalVar? || Function? || DbgAnnotation?
    }
  }

  datatype SymbolOccurrence = SymbolOccurrence(
    span: Span,
    useDef: UseDefKind,
    symbolKind: SymbolKind,
    name: string,
    funcBodyId: Option<nat>)

  /** The index's record of one function definition. */
  datatype FunctionBody = FunctionBody(
    name: Spanned<string>,
    completeRange: Span,
    labels: Table,
    localVars: Table,
    basicBlocks: seq<Syntax.BasicBlock>,
    incomingBranches: map<string, seq<Spanned<string>>>)
  {
    /** The scope table of a local category. */
    function LocalTable(k: SymbolKind): Table
      requires !k.IsGlobal()
    {
      if k.Label? then labels else localVars
    }

    function WithLocalTable(k: SymbolKind, t: Table): FunctionBody
      requires !k.IsGlobal()
    {
      if k.Label? then this.(labels := t) else this.(localVars := t)
    }
  }

  type ReverseIndex = OrderedMap.SortedEntries<SymbolOccurrence>

  datatype HIRIndex = HIRIndex(
    globalVars: Table,
    functions: Table,
    dbgAnnotations: Table,
    reverseIdx: ReverseIndex,
    functionBodies: seq<FunctionBody>)

  const EmptyIndex := HIRIndex(map[], map[], map[], [], [])

  /** The global table of a global category. */
  function GlobalTable(idx: HIRIndex, k: SymbolKind): Table
    requires k.IsGlobal()
  {
    match k
    case GlobalVar => idx.globalVars
    case Function => idx.functions
    case DbgAnnotation => idx.dbgAnnotations
  }

  /** The table for category `k`: global, or the given function's scope,
      which the local categories cannot do without. */
  function GetBySymbolKind(idx: HIRIndex, k: SymbolKind, fb: Option<FunctionBody>): (r: Table)
    requires k.IsGlobal() || fb.Some?
    ensures k.GlobalVar? ==> r == idx.globalVars
    ensures k.Function? ==> r == idx.functions
    ensures k.DbgAnnotation? ==> r == idx.dbgAnnotations
    ensures k.Label? ==> r == fb.value.labels
    ensures k.LocalVar? ==> r == fb.value.localVars
  {
    if k.IsGlobal() then GlobalTable(idx, k) else fb.value.LocalTable(k)
  }

  /** Records one occurrence of `name` in table `t`. A span already present
      in any of the name's three lists changes nothing. Otherwise the span is
      appended to the list `ud` selects and the reverse index gets an entry at
      the span's start. The name always ends up in the table. */
  function AddInternal(t: Table, rev: ReverseIndex, fbId: Option<nat>, k: SymbolKind, ud: UseDefKind,
                       span: Span, name: string): (r: (Table, ReverseIndex))
    ensures name in r.0 && Recorded(r.0, name, span)
    ensures forall n :: n != name ==> (n in r.0 <==> n in t)
    ensures forall n :: n != name && n in t ==> r.0[n] == t[n]
    ensures Recorded(t, name, span) ==> r == (t, rev)
    ensures !Recorded(t, name, span) ==>
      && r.0[name].Get(ud) == Lookup(t, name).Get(ud) + [span]
      && (forall other :: other != ud ==> r.0[name].Get(other) == Lookup(t, name).Get(other))
      && OrderedMap.Entry(span.start, SymbolOccurrence(span, ud, k, name, fbId)) in r.1
      && (forall e :: e in rev && e.key != span.start ==> e in r.1)
    ensures forall e :: e in r.1 ==> e in rev || e == OrderedMap.Entry(span.start, SymbolOccurrence(span, ud, k, name, fbId))
    ensures TableGrows(t, r.0)
    ensures r.0 == Add(t, Occurrence(name, span, ud))
  {
    var e := Lookup(t, name);
    if e.Has(span) then
      (t, rev)
    else
      (Add(t, Occurrence(name, span, ud)),
       OrderedMap.Insert(rev, span.start, SymbolOccurrence(span, ud, k, name, fbId)))
  }

  /** Recording keeps every list of the table free of repeated spans. */
  lemma AddInternalUnique(t: Table, rev: ReverseIndex, fbId: Option<nat>, k: SymbolKind, ud: UseDefKind,
                          span: Span, name: string)
    requires TableUnique(t)
    ensures TableUnique(AddInternal(t, rev, fbId, k, ud, span, name).0)
  {
    if !Recorded(t, name, span) {
      PushKeepsUnique(Lookup(t, name), ud, span);
    }
  }

  /** Records an occurrence of a global symbol; only the table `k` selects
      and the reverse index can change. */
  function AddGlobal(idx: HIRIndex, k: SymbolKind, ud: UseDefKind, span: Span, name: string): (r: HIRIndex)
    requires k.IsGlobal()
    ensures r.functionBodies == idx.functionBodies
    ensures !k.GlobalVar? ==> r.globalVars == idx.globalVars
    ensures !k.Function? ==> r.functions == idx.functions
    ensures !k.DbgAnnotation? ==> r.dbgAnnotations == idx.dbgAnnotations
    ensures var res := AddInternal(GlobalTable(idx, k), idx.reverseIdx, None, k, ud, span, name);
      GlobalTable(r, k) == res.0 && r.reverseIdx == res.1
  {
    var res := AddInternal(GlobalTable(idx, k), idx.reverseIdx, None, k, ud, span, name);
    match k
    case GlobalVar => idx.(globalVars := res.0, reverseIdx := res.1)
    case Function => idx.(functions := res.0, reverseIdx := res.1)
    case DbgAnnotation => idx.(dbgAnnotations := res.0, reverseIdx := res.1)
  }

  /** Records an occurrence of a label or local variable in the scope of
      function body `id`; nothing outside that scope and the reverse index changes. */
  function AddFuncLocal(idx: HIRIndex, id: nat, k: SymbolKind, ud: UseDefKind, span: Span, name: string): (r: HIRIndex)
    requires !k.IsGlobal() && id < |idx.functionBodies|
    ensures r.globalVars == idx.globalVars && r.functions == idx.functions && r.dbgAnnotations == idx.dbgAnnotations
    ensures |r.functionBodies| == |idx.functionBodies|
    ensures forall j :: 0 <= j < |idx.functionBodies| && j != id ==> r.functionBodies[j] == idx.functionBodies[j]
    ensures var res := AddInternal(idx.functionBodies[id].LocalTable(k), idx.reverseIdx, Some(id), k, ud, span, name);
      && r.functionBodies[id] == idx.functionBodies[id].WithLocalTable(k, res.0)
      && r.reverseIdx == res.1
  {
    var fb := idx.functionBodies[id];
    var res := AddInternal(fb.LocalTable(k), idx.reverseIdx, Some(id), k, ud, span, name);
    idx.(functionBodies := idx.functionBodies[id := fb.WithLocalTable(k, res.0)], reverseIdx := res.1)
  }

  /** After recording an occurrence, the table `get_by_symbol_kind` selects
      for it holds the span under the name. */
  lemma AddThenGet(idx: HIRIndex, k: SymbolKind, ud: UseDefKind, span: Span, name: string, id: nat)
    requires k.IsGlobal() || id < |idx.functionBodies|
    ensures k.IsGlobal() ==> Recorded(GetBySymbolKind(AddGlobal(idx, k, ud, span, name), k, None), name, span)
    ensures !k.IsGlobal() ==>
      var r := AddFuncLocal(idx, id, k, ud, span, name);
      Recorded(GetBySymbolKind(r, k, Some(r.functionBodies[id])), name, span)
  {
  }

  /* ---------------- Well-formedness of an index ---------------- */

  /** An occurrence's scope exists: global categories carry no function id,
      local ones the id of an existing function body. */
  predicate InScope(idx: HIRIndex, o: SymbolOccurrence) {
    if o.symbolKind.IsGlobal() then o.funcBodyId.None?
    else o.funcBodyId.Some? && o.funcBodyId.value < |idx.functionBodies|
  }

  /** The table an occurrence belongs to. */
  function ScopeTable(idx: HIRIndex, o: SymbolOccurrence): Table
    requires InScope(idx, o)
  {
    if o.symbolKind.IsGlobal() then GlobalTable(idx, o.symbolKind)
    else idx.functionBodies[o.funcBodyId.value].LocalTable(o.symbolKind)
  }

  /** An occurrence of the reverse index is backed by its table: the span is
      in the name's list of the occurrence's kind. */
  ghost predicate Backed(idx: HIRIndex, o: SymbolOccurrence) {
    && InScope(idx, o)
    && o.name in ScopeTable(idx, o)
    && o.span in ScopeTable(idx, o)[o.name].Get(o.useDef)
  }

  ghost predicate NoDup<T>(s: seq<T>) {
    forall i, j :: 0 <= i < j < |s| ==> s[i] != s[j]
  }

  ghost predicate TablesUnique(idx: HIRIndex) {
    && TableUnique(idx.globalVars)
    && TableUnique(idx.functions)
    && TableUnique(idx.dbgAnnotations)
    && forall j :: 0 <= j < |idx.functionBodies| ==>
         TableUnique(idx.functionBodies[j].labels) && TableUnique(idx.functionBodies[j].localVars)
  }

  /** No incoming-branch list names the same source label twice. */
  ghost predicate EdgesUnique(idx: HIRIndex) {
    forall j, t :: 0 <= j < |idx.functionBodies| && t in idx.functionBodies[j].incomingBranches ==>
      NoDup(idx.functionBodies[j].incomingBranches[t])
  }

  /** The reverse index is keyed by start offset and every entry is backed. */
  ghost predicate ReverseSound(idx: HIRIndex) {
    forall e :: e in idx.reverseIdx ==> e.key == e.value.span.start && Backed(idx, e.value)
  }

  /** The invariant every index built from statements and tokens satisfies. */
  ghost predicate Valid(idx: HIRIndex) {
    TablesUnique(idx) && EdgesUnique(idx) && ReverseSound(idx)
  }

  /** Every incoming-branch list of `a` is a prefix of the same target's list in `b`. */
  ghost predicate EdgesGrow(a: map<string, seq<Spanned<string>>>, b: map<string, seq<Spanned<string>>>) {
    forall t :: t in a ==> t in b && a[t] <= b[t]
  }

  /** Nothing recorded in `a` is lost in `b`, and no function body disappears. */
  ghost predicate Grows(a: HIRIndex, b: HIRIndex) {
    && TableGrows(a.globalVars, b.globalVars)
    && TableGrows(a.functions, b.functions)
    && TableGrows(a.dbgAnnotations, b.dbgAnnotations)
    && |a.functionBodies| <= |b.functionBodies|
    && forall j :: 0 <= j < |a.functionBodies| ==>
         && TableGrows(a.functionBodies[j].labels, b.functionBodies[j].labels)
         && TableGrows(a.functionBodies[j].localVars, b.functionBodies[j].localVars)
         && EdgesGrow(a.functionBodies[j].incomingBranches, b.functionBodies[j].incomingBranches)
  }

  lemma GrowsTransitive(a: HIRIndex, b: HIRIndex, c: HIRIndex)
    requires Grows(a, b) && Grows(b, c)
    ensures Grows(a, c)
  {
    forall j | 0 <= j < |a.functionBodies|
      ensures TableGrows(a.functionBodies[j].labels, c.functionBodies[j].labels)
      ensures TableGrows(a.functionBodies[j].localVars, c.functionBodies[j].localVars)
      ensures EdgesGrow(a.functionBodies[j].incomingBranches, c.functionBodies[j].incomingBranches)
    {
      TableGrowsTransitive(a.functionBodies[j].labels, b.functionBodies[j].labels, c.functionBodies[j].labels);
      TableGrowsTransitive(a.functionBodies[j].localVars, b.functionBodies[j].localVars, c.functionBodies[j].localVars);
    }
  }

  /** A backed occurrence stays backed in any index that grows from it. */
  lemma BackedGrows(a: HIRIndex, b: HIRIndex, o: SymbolOccurrence)
    requires Grows(a, b) && Backed(a, o)
    ensures Backed(b, o)
  {
    var ta := ScopeTable(a, o);
    var tb := ScopeTable(b, o);
    assert TableGrows(ta, tb);
    assert ta[o.name].GrowsTo(tb[o.name]);
    match o.useDef
    case Decl => assert ta[o.name].decls <= tb[o.name].decls;
    case Def => assert ta[o.name].defs <= tb[o.name].defs;
    case Use => assert ta[o.name].uses <= tb[o.name].uses;
  }

  /** Entries of `b`'s reverse index that already were in `a`'s stay backed. */
  lemma ReverseSoundStep(a: HIRIndex, b: HIRIndex, added: OrderedMap.Entry<SymbolOccurrence>)
    requires ReverseSound(a) && Grows(a, b)
    requires forall e :: e in b.reverseIdx ==> e in a.reverseIdx || e == added
    requires added in b.reverseIdx && !(added in a.reverseIdx) ==>
      added.key == added.value.span.start && Backed(b, added.value)
    ensures ReverseSound(b)
  {
    forall e | e in b.reverseIdx
      ensures e.key == e.value.span.start && Backed(b, e.value)
    {
      if e in a.reverseIdx {
        BackedGrows(a, b, e.value);
      }
    }
  }

  /** Recording a global occurrence keeps the invariant and loses nothing. */
  lemma {:induction false} AddGlobalValid(idx: HIRIndex, k: SymbolKind, ud: UseDefKind, span: Span, name: string)
    requires k.IsGlobal()
    ensures Grows(idx, AddGlobal(idx, k, ud, span, name))
    ensures Valid(idx) ==> Valid(AddGlobal(idx, k, ud, span, name))
  {
    var r := AddGlobal(idx, k, ud, span, name);
    var t := GlobalTable(idx, k);
    var res := AddInternal(t, idx.reverseIdx, None, k, ud, span, name);
    assert GlobalTable(r, k) == res.0 && r.reverseIdx == res.1;
    assert TableGrows(t, res.0);
    assert r.functionBodies == idx.functionBodies;
    assert Grows(idx, r) by {
      match k
      case GlobalVar =>
      case Function =>
      case DbgAnnotation =>
    }
    if Valid(idx) {
      AddGlobalValidStep(idx, k, ud, span, name);
    }
  }

  lemma {:induction false} AddGlobalValidStep(idx: HIRIndex, k: SymbolKind, ud: UseDefKind, span: Span, name: string)
    requires k.IsGlobal() && Valid(idx) && Grows(idx, AddGlobal(idx, k, ud, span, name))
    ensures Valid(AddGlobal(idx, k, ud, span, name))
  {
    var r := AddGlobal(idx, k, ud, span, name);
    var t := GlobalTable(idx, k);
    var res := AddInternal(t, idx.reverseIdx, None, k, ud, span, name);
    var added := OrderedMap.Entry(span.start, SymbolOccurrence(span, ud, k, name, None));
    assert GlobalTable(r, k) == res.0 && r.reverseIdx == res.1;
    AddInternalUnique(t, idx.reverseIdx, None, k, ud, span, name);
    assert TablesUnique(r) by {
      match k
      case GlobalVar =>
      case Function =>
      case DbgAnnotation =>
    }
    assert EdgesUnique(r);
    if added in r.reverseIdx && !(added in idx.reverseIdx) {
      assert !Recorded(t, name, span);
      assert ScopeTable(r, added.value) == res.0;
      assert span in res.0[name].Get(ud);
    }
    ReverseSoundStep(idx, r, added);
  }

  /** Recording a local occurrence keeps the invariant and loses nothing. */
  lemma {:induction false} AddFuncLocalValid(idx: HIRIndex, id: nat, k: SymbolKind, ud: UseDefKind, span: Span, name: string)
    requires !k.IsGlobal() && id < |idx.functionBodies|
    ensures Grows(idx, AddFuncLocal(idx, id, k, ud, span, name))
    ensures Valid(idx) ==> Valid(AddFuncLocal(idx, id, k, ud, span, name))
  {
    var r := AddFuncLocal(idx, id, k, ud, span, name);
    var fb := idx.functionBodies[id];
    var t := fb.LocalTable(k);
    var res := AddInternal(t, idx.reverseIdx, Some(id), k, ud, span, name);
    var added := OrderedMap.Entry(span.start, SymbolOccurrence(span, ud, k, name, Some(id)));
    var fb' := r.functionBodies[id];
    assert fb' == fb.WithLocalTable(k, res.0) && r.reverseIdx == res.1;
    assert fb'.LocalTable(k) == res.0;
    assert fb'.incomingBranches == fb.incomingBranches;
    if k.Label? {
      assert fb'.localVars == fb.localVars;
      assert TableGrows(fb.labels, fb'.labels);
    } else {
      assert fb'.labels == fb.labels;
      assert TableGrows(fb.localVars, fb'.localVars);
    }
    assert Grows(idx, r);
    if Valid(idx) {
      AddInternalUnique(t, idx.reverseIdx, Some(id), k, ud, span, name);
      assert TableUnique(fb'.labels) && TableUnique(fb'.localVars);
      assert TablesUnique(r);
      assert EdgesUnique(r);
      if added in r.reverseIdx && !(added in idx.reverseIdx) {
        assert !Recorded(t, name, span);
        assert ScopeTable(r, added.value) == res.0;
        assert span in res.0[name].Get(ud);
      }
      ReverseSoundStep(idx, r, added);
    }
  }

  /* ---------------- Position lookup ---------------- */

  /** The first entry, in key order from `i` on, whose span contains `pos`. */
  function FirstContaining(es: seq<OrderedMap.Entry<SymbolOccurrence>>, pos: nat, i: nat): (r: Option<nat>)
    requires i <= |es|
    ensures r.Some? ==>
      && i <= r.value < |es|
      && es[r.value].value.span.Contains(pos)
      && forall j :: i <= j < r.value ==> !es[j].value.span.Contains(pos)
    ensures r.None? <==> forall j :: i <= j < |es| ==> !es[j].value.span.Contains(pos)
    decreases |es| - i
  {
    if i == |es| then None
    else if es[i].value.span.Contains(pos) then Some(i)
    else FirstContaining(es, pos, i + 1)
  }

  /** The occurrence covering byte offset `pos`: the first one in start-offset
      order whose span contains it, or None when no recorded span does. */
  function FindSymbolAtPosition(idx: HIRIndex, pos: nat): (r: Option<SymbolOccurrence>)
    ensures r.None? <==> forall j :: 0 <= j < |idx.reverseIdx| ==> !idx.reverseIdx[j].value.span.Contains(pos)
    ensures r.Some? ==>
      && r.value.span.Contains(pos)
      && exists i :: 0 <= i < |idx.reverseIdx| && idx.reverseIdx[i].value == r.value
           && forall j :: 0 <= j < i ==> !idx.reverseIdx[j].value.span.Contains(pos)
  {
    match FirstContaining(idx.reverseIdx, pos, 0)
    case None => None
    case Some(i) => Some(idx.reverseIdx[i].value)
  }

  /** The last entry among the first `n` whose key is at most `pos`. */
  function LastAtOrBefore(es: seq<OrderedMap.Entry<SymbolOccurrence>>, pos: nat, n: nat): (r: Option<nat>)
    requires n <= |es|
    ensures r.Some? ==> r.value < n && es[r.value].key <= pos && forall j :: r.value < j < n ==> es[j].key > pos
    ensures r.None? ==> forall j :: 0 <= j < n ==> es[j].key > pos
  {
    if n == 0 then None
    else if es[n - 1].key <= pos then Some(n - 1)
    else LastAtOrBefore(es, pos, n - 1)
  }

  /** The lookup the index is designed for: take the entry with the greatest
      start at or before `pos` and check that its span contains `pos`. */
  function FindByUpperBound(idx: HIRIndex, pos: nat): Option<SymbolOccurrence> {
    match LastAtOrBefore(idx.reverseIdx, pos, |idx.reverseIdx|)
    case None => None
    case Some(i) => if idx.reverseIdx[i].value.span.Contains(pos) then Some(idx.reverseIdx[i].value) else None
  }

  /** The recorded spans follow each other without overlapping. */
  ghost predicate NonOverlapping(idx: HIRIndex) {
    forall i, j :: 0 <= i < j < |idx.reverseIdx| ==>
      idx.reverseIdx[i].value.span.end <= idx.reverseIdx[j].value.span.start
  }

  /** When spans do not overlap, the greatest-start lookup answers exactly
      what the linear scan answers. */
  lemma UpperBoundAgrees(idx: HIRIndex, pos: nat)
    requires Valid(idx) && NonOverlapping(idx)
    ensures FindByUpperBound(idx, pos) == FindSymbolAtPosition(idx, pos)
  {
    var es := idx.reverseIdx;
    var first := FirstContaining(es, pos, 0);
    var last := LastAtOrBefore(es, pos, |es|);
    if first.Some? {
      var i := first.value;
      assert es[i] in es;
      assert es[i].key == es[i].value.span.start;
      assert last.Some? && i <= last.value;
      var j := last.value;
      assert es[j] in es;
      assert es[j].key == es[j].value.span.start;
    }
  }

  /** When spans do not overlap, every offset inside a recorded span finds
      exactly that occurrence. */
  lemma LookupTotal(idx: HIRIndex, i: nat, pos: nat)
    requires NonOverlapping(idx)
    requires i < |idx.reverseIdx| && idx.reverseIdx[i].value.span.Contains(pos)
    ensures FindSymbolAtPosition(idx, pos) == Some(idx.reverseIdx[i].value)
  {
    var first := FirstContaining(idx.reverseIdx, pos, 0);
    assert first.Some?;
    assert first.value == i;
  }
}
