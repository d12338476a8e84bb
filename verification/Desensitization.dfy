/**
 * The masking walk over a logged value: a tree of structs, slices and pointers whose string fields
 * are masked in place. A string location is a cell; two pointers may lead to the same one.
 */
module Desensitization {
  import opened Wrappers
  import opened Masking

  class Cell {
    var text: string

    constructor (text: string)
      ensures this.text == text
    {
      this.text := text;
    }
  }

  /** A reflected value. `Nil` is a nil pointer, `Other` any kind the walk does not look into. */
  datatype Value =
    | Text(cell: Cell)
    | Struct(fields: seq<Field>)
    | Slice(elems: seq<Value>)
    | Pointer(target: Value)
    | Nil
    | Other

  datatype Field = Field(name: string, exported: bool, value: Value)

  /** One application of a rule to a cell. */
  datatype Visit = Visit(cell: Cell, rule: Rule)

  // --- The walk ---

  /** `reflect.Indirect`: one pointer is followed, and what it leads to is addressable. */
  function Indirect(v: Value): Value {
    if v.Pointer? then v.target else v
  }

  /** Whether a field may be set: it is exported, and its struct or a pointer makes it addressable. */
  predicate CanSet(f: Field, addressable: bool) {
    f.exported && f.value != Nil && (addressable || f.value.Pointer?)
  }

  /** The rules the walk applies, cell by cell, in its order. */
  function Visits(v: Value, addressable: bool): seq<Visit>
    decreases v, 0
  {
    match Indirect(v)
    case Struct(fields) => FieldVisits(fields, addressable || v.Pointer?)
    case Slice(elems) => SliceVisits(elems)
    case _ => []
  }

  function FieldVisits(fields: seq<Field>, addressable: bool): seq<Visit>
    decreases fields, 0
  {
    if fields == [] then []
    else FieldVisits(fields[..|fields| - 1], addressable) + OneFieldVisits(fields[|fields| - 1], addressable)
  }

  function OneFieldVisits(f: Field, addressable: bool): seq<Visit>
    decreases f, 0
  {
    if !CanSet(f, addressable) then []
    else
      match Indirect(f.value)
      case Struct(_) => Visits(Indirect(f.value), true)
      case Slice(elems) => SliceVisits(elems)
      case Text(cell) => (match RuleOf(f.name) case Some(rule) => [Visit(cell, rule)] case None => [])
      case _ => []
  }

  function SliceVisits(elems: seq<Value>): seq<Visit>
    decreases elems, 0
  {
    if elems == [] then [] else SliceVisits(elems[..|elems| - 1]) + Visits(elems[|elems| - 1], true)
  }

  // --- The walk in place ---

  /** The string locations of a value, in order. */
  function Cells(v: Value): seq<Cell>
    decreases v, 0
  {
    match v
    case Text(cell) => [cell]
    case Struct(fields) => FieldCells(fields)
    case Slice(elems) => SliceCells(elems)
    case Pointer(target) => Cells(target)
    case _ => []
  }

  function FieldCells(fields: seq<Field>): seq<Cell>
    decreases fields, 0
  {
    if fields == [] then [] else FieldCells(fields[..|fields| - 1]) + Cells(fields[|fields| - 1].value)
  }

  function SliceCells(elems: seq<Value>): seq<Cell>
    decreases elems, 0
  {
    if elems == [] then [] else SliceCells(elems[..|elems| - 1]) + Cells(elems[|elems| - 1])
  }

  lemma {:induction false} IndirectCells(v: Value)
    ensures Cells(Indirect(v)) == Cells(v)
  {
  }

  ghost predicate Among(list: seq<Cell>, cells: set<Cell>) {
    forall c :: c in list ==> c in cells
  }

  lemma {:induction false} FieldCellsHas(fields: seq<Field>, i: nat, cells: set<Cell>)
    requires i < |fields| && Among(FieldCells(fields), cells)
    ensures Among(Cells(fields[i].value), cells)
  {
    if i < |fields| - 1 {
      FieldCellsHas(fields[..|fields| - 1], i, cells);
    }
  }

  lemma {:induction false} SliceCellsHas(elems: seq<Value>, i: nat, cells: set<Cell>)
    requires i < |elems| && Among(SliceCells(elems), cells)
    ensures Among(Cells(elems[i]), cells)
  {
    if i < |elems| - 1 {
      SliceCellsHas(elems[..|elems| - 1], i, cells);
    }
  }

  ghost function RulesFor(visits: seq<Visit>, c: Cell): seq<Rule> {
    if visits == [] then []
    else
      var last := visits[|visits| - 1];
      RulesFor(visits[..|visits| - 1], c) + if last.cell == c then [last.rule] else []
  }

  /** What a cell holds after the visits, from what it held before. */
  ghost function After(visits: seq<Visit>, c: Cell, text: string): string {
    ApplyAll(RulesFor(visits, c), text)
  }

  lemma {:induction false} AfterAppend(a: seq<Visit>, b: seq<Visit>, c: Cell, text: string)
    ensures After(a + b, c, text) == After(b, c, After(a, c, text))
  {
    if b == [] {
      assert a + b == a;
    } else {
      var n := |b| - 1;
      AfterAppend(a, b[..n], c, text);
      assert (a + b)[..|a + b| - 1] == a + b[..n];
      var rules, before := RulesFor(a + b[..n], c), RulesFor(b[..n], c);
      if b[n].cell == c {
        assert (rules + [b[n].rule])[..|rules|] == rules && (before + [b[n].rule])[..|before|] == before;
      } else {
        assert rules + [] == rules && before + [] == before;
      }
    }
  }

  lemma {:induction false} AfterOne(cell: Cell, rule: Rule, c: Cell, text: string)
    ensures After([Visit(cell, rule)], c, text) == if c == cell then Transform(rule, text) else text
  {
    assert [Visit(cell, rule)][..0] == [] && [rule][..0] == [];
    assert RulesFor([Visit(cell, rule)], c) == (if c == cell then [rule] else []);
    assert ApplyAll([rule], text) == Transform(rule, ApplyAll([], text));
  }

  /**
   * The walk, in place. Every cell of the value, and any other the caller holds, ends with just the
   * rules of its visits applied to what it held.
   */
  method FindAndTransform(v: Value, addressable: bool, ghost cells: set<Cell>)
    requires Among(Cells(v), cells)
    modifies cells
    ensures forall c :: c in cells ==> c.text == After(Visits(v, addressable), c, old(c.text))
    decreases v, 1
  {
    IndirectCells(v);
    match Indirect(v) {
      case Struct(fields) => TransformFields(fields, addressable || v.Pointer?, cells);
      case Slice(elems) => TransformSlice(elems, cells);
      case _ =>
    }
  }

  /** The loop over the fields of a struct. */
  method TransformFields(fields: seq<Field>, addressable: bool, ghost cells: set<Cell>)
    requires Among(FieldCells(fields), cells)
    modifies cells
    ensures forall c :: c in cells ==> c.text == After(FieldVisits(fields, addressable), c, old(c.text))
    decreases fields, 1
  {
    for i := 0 to |fields|
      invariant forall c :: c in cells ==> c.text == After(FieldVisits(fields[..i], addressable), c, old(c.text))
    {
      ghost var done, next := FieldVisits(fields[..i], addressable), OneFieldVisits(fields[i], addressable);
      forall c | c in cells
        ensures After(done + next, c, old(c.text)) == After(next, c, c.text)
      {
        AfterAppend(done, next, c, old(c.text));
      }
      assert fields[..i + 1][..i] == fields[..i];
      assert FieldVisits(fields[..i + 1], addressable) == done + next;
      FieldCellsHas(fields, i, cells);
      TransformField(fields[i], addressable, cells);
    }
    assert fields[..|fields|] == fields;
  }

  /** One turn of that loop. */
  method TransformField(f: Field, addressable: bool, ghost cells: set<Cell>)
    requires Among(Cells(f.value), cells)
    modifies cells
    ensures forall c :: c in cells ==> c.text == After(OneFieldVisits(f, addressable), c, old(c.text))
    decreases f, 0
  {
    if CanSet(f, addressable) {
      IndirectCells(f.value);
      match Indirect(f.value) {
        case Struct(_) => FindAndTransform(Indirect(f.value), true, cells);
        case Slice(elems) => TransformSlice(elems, cells);
        case Text(cell) =>
          var rule := RuleOf(f.name);
          if rule.Some? {
            forall c, text | c in cells
              ensures After([Visit(cell, rule.value)], c, text) ==
                      if c == cell then Transform(rule.value, text) else text
            {
              AfterOne(cell, rule.value, c, text);
            }
            cell.text := Transform(rule.value, cell.text);
          }
        case _ =>
      }
    }
  }

  method TransformSlice(elems: seq<Value>, ghost cells: set<Cell>)
    requires Among(SliceCells(elems), cells)
    modifies cells
    ensures forall c :: c in cells ==> c.text == After(SliceVisits(elems), c, old(c.text))
    decreases elems, 1
  {
    for j := 0 to |elems|
      invariant forall c :: c in cells ==> c.text == After(SliceVisits(elems[..j]), c, old(c.text))
    {
      ghost var done, next := SliceVisits(elems[..j]), Visits(elems[j], true);
      forall c | c in cells
        ensures After(done + next, c, old(c.text)) == After(next, c, c.text)
      {
        AfterAppend(done, next, c, old(c.text));
      }
      assert elems[..j + 1][..j] == elems[..j];
      assert SliceVisits(elems[..j + 1]) == done + next;
      SliceCellsHas(elems, j, cells);
      FindAndTransform(elems[j], true, cells);
    }
    assert elems[..|elems|] == elems;
  }

  // --- What the walk masks, said without it ---

  datatype Step = Named(name: string, exported: bool) | Deref | Index

  /** A string location and the whole path that leads to it. */
  datatype Leaf = Leaf(cell: Cell, path: seq<Step>)

  /** All string locations of a value, whatever lies on the way to them. */
  function Leaves(v: Value, path: seq<Step>): seq<Leaf>
    decreases v, 0
  {
    match v
    case Text(cell) => [Leaf(cell, path)]
    case Struct(fields) => FieldLeaves(fields, path)
    case Slice(elems) => SliceLeaves(elems, path)
    case Pointer(target) => Leaves(target, path + [Deref])
    case _ => []
  }

  function FieldLeaves(fields: seq<Field>, path: seq<Step>): seq<Leaf>
    decreases fields, 0
  {
    if fields == [] then []
    else
      var f := fields[|fields| - 1];
      FieldLeaves(fields[..|fields| - 1], path) + Leaves(f.value, path + [Named(f.name, f.exported)])
  }

  function SliceLeaves(elems: seq<Value>, path: seq<Step>): seq<Leaf>
    decreases elems, 0
  {
    if elems == [] then []
    else SliceLeaves(elems[..|elems| - 1], path) + Leaves(elems[|elems| - 1], path + [Index])
  }

  /** A pointer or a slice before position `k` makes what is there addressable. */
  predicate Addressable(path: seq<Step>, k: nat)
    requires k <= |path|
  {
    exists j :: 0 <= j < k && !path[j].Named?
  }

  /** A step the walk does not take: an unexported field, a second pointer in a row, a field that cannot be set. */
  predicate Blocked(path: seq<Step>, k: nat)
    requires k < |path|
  {
    || (path[k].Named? && !path[k].exported)
    || (path[k].Deref? && k + 1 < |path| && path[k + 1].Deref?)
    || (path[k].Named? && !Addressable(path, k) && k + 1 < |path| && !path[k + 1].Deref?)
  }

  predicate Open(path: seq<Step>) {
    forall k :: 0 <= k < |path| ==> !Blocked(path, k)
  }

  /** The field a location is the value of, directly or through one pointer. */
  function RuleAt(path: seq<Step>): Option<Rule> {
    var n := |path|;
    if n >= 1 && path[n - 1].Named? && Addressable(path, n - 1) then RuleOf(path[n - 1].name)
    else if n >= 2 && path[n - 1].Deref? && path[n - 2].Named? then RuleOf(path[n - 2].name)
    else None
  }

  function Selected(leaf: Leaf): seq<Visit> {
    if Open(leaf.path) && RuleAt(leaf.path).Some? then [Visit(leaf.cell, RuleAt(leaf.path).value)] else []
  }

  function Select(leaves: seq<Leaf>): seq<Visit> {
    if leaves == [] then [] else Select(leaves[..|leaves| - 1]) + Selected(leaves[|leaves| - 1])
  }

  lemma {:induction false} SelectAppend(a: seq<Leaf>, b: seq<Leaf>)
    ensures Select(a + b) == Select(a) + Select(b)
  {
    if b == [] {
      assert a + b == a;
    } else {
      assert (a + b)[..|a + b| - 1] == a + b[..|b| - 1];
      SelectAppend(a, b[..|b| - 1]);
    }
  }

  /** A block on the way is never lifted. */
  ghost predicate Dead(path: seq<Step>) {
    exists k :: 0 <= k < |path| && Blocked(path, k)
  }

  lemma {:induction false} DeadStays(path: seq<Step>, step: Step)
    requires Dead(path)
    ensures Dead(path + [step])
  {
    var k :| 0 <= k < |path| && Blocked(path, k);
    var longer := path + [step];
    if Addressable(longer, k) {
      var j :| 0 <= j < k && !longer[j].Named?;
      assert !path[j].Named?;
    }
    assert Blocked(longer, k);
  }

  lemma {:induction false} DeadSelectsNothing(v: Value, path: seq<Step>)
    requires Dead(path)
    ensures Select(Leaves(v, path)) == []
    decreases v, 0
  {
    match v
    case Text(cell) => assert [Leaf(cell, path)][..0] == [];
    case Struct(fields) => DeadFields(fields, path);
    case Slice(elems) => DeadElems(elems, path);
    case Pointer(target) =>
      DeadStays(path, Deref);
      DeadSelectsNothing(target, path + [Deref]);
    case _ =>
  }

  lemma {:induction false} DeadFields(fields: seq<Field>, path: seq<Step>)
    requires Dead(path)
    ensures Select(FieldLeaves(fields, path)) == []
    decreases fields, 0
  {
    if fields != [] {
      var f := fields[|fields| - 1];
      DeadFields(fields[..|fields| - 1], path);
      DeadStays(path, Named(f.name, f.exported));
      DeadSelectsNothing(f.value, path + [Named(f.name, f.exported)]);
      SelectAppend(FieldLeaves(fields[..|fields| - 1], path), Leaves(f.value, path + [Named(f.name, f.exported)]));
    }
  }

  lemma {:induction false} DeadElems(elems: seq<Value>, path: seq<Step>)
    requires Dead(path)
    ensures Select(SliceLeaves(elems, path)) == []
    decreases elems, 0
  {
    if elems != [] {
      DeadElems(elems[..|elems| - 1], path);
      DeadStays(path, Index);
      DeadSelectsNothing(elems[|elems| - 1], path + [Index]);
      SelectAppend(SliceLeaves(elems[..|elems| - 1], path), Leaves(elems[|elems| - 1], path + [Index]));
    }
  }

  /** The fields of a struct whose own field cannot be set are out of reach. */
  lemma {:induction false} UnsettableFields(fields: seq<Field>, path: seq<Step>)
    requires path != [] && path[|path| - 1].Named? && !Addressable(path, |path| - 1)
    ensures Select(FieldLeaves(fields, path)) == []
    decreases fields, 0
  {
    if fields != [] {
      var f := fields[|fields| - 1];
      var longer := path + [Named(f.name, f.exported)];
      UnsettableFields(fields[..|fields| - 1], path);
      SettingBlocked(path, Named(f.name, f.exported));
      DeadSelectsNothing(f.value, longer);
      SelectAppend(FieldLeaves(fields[..|fields| - 1], path), Leaves(f.value, longer));
    }
  }

  lemma {:induction false} UnsettableElems(elems: seq<Value>, path: seq<Step>)
    requires path != [] && path[|path| - 1].Named? && !Addressable(path, |path| - 1)
    ensures Select(SliceLeaves(elems, path)) == []
    decreases elems, 0
  {
    if elems != [] {
      UnsettableElems(elems[..|elems| - 1], path);
      SettingBlocked(path, Index);
      DeadSelectsNothing(elems[|elems| - 1], path + [Index]);
      SelectAppend(SliceLeaves(elems[..|elems| - 1], path), Leaves(elems[|elems| - 1], path + [Index]));
    }
  }

  lemma {:induction false} SettingBlocked(path: seq<Step>, step: Step)
    requires path != [] && path[|path| - 1].Named? && !Addressable(path, |path| - 1) && !step.Deref?
    ensures Dead(path + [step])
  {
    var k, longer := |path| - 1, path + [step];
    assert forall j :: 0 <= j < k ==> longer[j] == path[j];
    assert Blocked(longer, k);
  }

  lemma {:induction false} SecondPointerBlocked(path: seq<Step>)
    requires path != [] && path[|path| - 1].Deref?
    ensures Dead(path + [Deref])
  {
    assert Blocked(path + [Deref], |path| - 1);
  }

  /** How an open path goes on: which next steps keep it open, and what is addressable then. */
  lemma {:induction false} OpenStep(path: seq<Step>, step: Step)
    requires Open(path)
    requires step.Named? ==> step.exported
    requires path != [] && path[|path| - 1].Deref? ==> !step.Deref?
    requires path != [] && path[|path| - 1].Named? ==> step.Deref? || Addressable(path, |path| - 1)
    ensures Open(path + [step])
    ensures Addressable(path + [step], |path|) == Addressable(path, |path|)
    ensures Addressable(path + [step], |path| + 1) == (Addressable(path, |path|) || !step.Named?)
  {
    var longer := path + [step];
    forall k | 0 <= k <= |path|
      ensures Addressable(longer, k) == Addressable(path, k)
    {
      if Addressable(longer, k) {
        var j :| 0 <= j < k && !longer[j].Named?;
        assert !path[j].Named?;
      }
      if Addressable(path, k) {
        var j :| 0 <= j < k && !path[j].Named?;
        assert !longer[j].Named?;
      }
    }
    forall k | 0 <= k < |longer|
      ensures !Blocked(longer, k)
    {
      if k < |path| {
        assert !Blocked(path, k);
      }
    }
    assert longer[|path|] == step;
    if Addressable(longer, |path| + 1) && step.Named? {
      var j :| 0 <= j < |path| + 1 && !longer[j].Named?;
      assert j < |path| && !path[j].Named?;
    }
    if Addressable(path, |path|) {
      var j :| 0 <= j < |path| && !path[j].Named?;
      assert !longer[j].Named?;
    }
  }

  /** Where the walk stands when it is called: at the root or an element, or at a struct it may descend into. */
  ghost predicate At(v: Value, addressable: bool, path: seq<Step>) {
    && Open(path)
    && addressable == Addressable(path, |path|)
    && (path != [] && !path[|path| - 1].Index? ==> v.Struct?)
    && (path != [] && path[|path| - 1].Named? ==> Addressable(path, |path| - 1))
  }

  lemma {:induction false} WalkSelects(v: Value, addressable: bool, path: seq<Step>)
    requires At(v, addressable, path)
    ensures Visits(v, addressable) == Select(Leaves(v, path))
    decreases v, 0
  {
    match v
    case Struct(fields) => FieldsSelect(fields, addressable, path);
    case Slice(elems) => ElemsSelect(elems, path);
    case Text(cell) =>
      assert [Leaf(cell, path)][..0] == [];
      assert RuleAt(path) == None;
    case Pointer(target) =>
      OpenStep(path, Deref);
      var longer := path + [Deref];
      match target {
        case Struct(fields) => FieldsSelect(fields, true, longer);
        case Slice(elems) => ElemsSelect(elems, longer);
        case Text(cell) =>
          assert [Leaf(cell, longer)][..0] == [];
          assert RuleAt(longer) == None;
        case Pointer(second) =>
          SecondPointerBlocked(longer);
          DeadSelectsNothing(second, longer + [Deref]);
        case _ =>
      }
    case _ =>
  }

  lemma {:induction false} FieldsSelect(fields: seq<Field>, addressable: bool, path: seq<Step>)
    requires Open(path) && addressable == Addressable(path, |path|)
    requires path != [] && path[|path| - 1].Named? ==> Addressable(path, |path| - 1)
    ensures FieldVisits(fields, addressable) == Select(FieldLeaves(fields, path))
    decreases fields, 0
  {
    if fields != [] {
      var f := fields[|fields| - 1];
      FieldsSelect(fields[..|fields| - 1], addressable, path);
      OneFieldSelects(f, addressable, path);
      SelectAppend(FieldLeaves(fields[..|fields| - 1], path), Leaves(f.value, path + [Named(f.name, f.exported)]));
    }
  }

  lemma {:induction false} ElemsSelect(elems: seq<Value>, path: seq<Step>)
    requires Open(path)
    requires path != [] && path[|path| - 1].Named? ==> Addressable(path, |path| - 1)
    ensures SliceVisits(elems) == Select(SliceLeaves(elems, path))
    decreases elems, 0
  {
    if elems != [] {
      var v := elems[|elems| - 1];
      ElemsSelect(elems[..|elems| - 1], path);
      OpenStep(path, Index);
      WalkSelects(v, true, path + [Index]);
      SelectAppend(SliceLeaves(elems[..|elems| - 1], path), Leaves(v, path + [Index]));
    }
  }

  lemma {:induction false} OneFieldSelects(f: Field, addressable: bool, path: seq<Step>)
    requires Open(path) && addressable == Addressable(path, |path|)
    requires path != [] && path[|path| - 1].Named? ==> Addressable(path, |path| - 1)
    ensures OneFieldVisits(f, addressable) == Select(Leaves(f.value, path + [Named(f.name, f.exported)]))
    decreases f, 1
  {
    var at := path + [Named(f.name, f.exported)];
    if !f.exported {
      assert Blocked(at, |path|);
      DeadSelectsNothing(f.value, at);
    } else {
      OpenStep(path, Named(f.name, f.exported));
      if f.value.Pointer? {
        PointedFieldSelects(f, path);
      } else {
        match f.value
        case Struct(fields) =>
          if addressable {
            WalkSelects(f.value, true, at);
          } else {
            UnsettableFields(fields, at);
          }
        case Slice(elems) =>
          if addressable {
            ElemsSelect(elems, at);
          } else {
            UnsettableElems(elems, at);
          }
        case Text(cell) => assert [Leaf(cell, at)][..0] == [];
        case _ =>
      }
    }
  }

  lemma {:induction false} PointedFieldSelects(f: Field, path: seq<Step>)
    requires f.value.Pointer? && f.exported && Open(path + [Named(f.name, true)])
    ensures OneFieldVisits(f, true) == OneFieldVisits(f, false) == Select(Leaves(f.value, path + [Named(f.name, true)]))
    decreases f, 0
  {
    var at := path + [Named(f.name, true)];
    var through := at + [Deref];
    OpenStep(at, Deref);
    match f.value.target
    case Struct(fields) => FieldsSelect(fields, true, through);
    case Slice(elems) => ElemsSelect(elems, through);
    case Text(cell) =>
      assert [Leaf(cell, through)][..0] == [];
      assert through[|through| - 2] == Named(f.name, true);
    case Pointer(target) =>
      SecondPointerBlocked(through);
      DeadSelectsNothing(target, through + [Deref]);
    case _ =>
  }

  /**
   * The walk masks, in order, exactly those string locations whose path is open and ends at a field
   * that has a rule; no other location is touched.
   */
  lemma {:induction false} MasksExactly(v: Value)
    ensures Visits(v, false) == Select(Leaves(v, []))
  {
    WalkSelects(v, false, []);
  }

  /**
   * A struct that is not behind a pointer, as copying by value leaves it, keeps its secrets in the
   * clear: without a pointer among its fields, nothing in it is masked at any depth.
   */
  lemma {:induction false} PlainStructStaysReadable(fields: seq<Field>)
    requires forall i :: 0 <= i < |fields| ==> !fields[i].value.Pointer?
    ensures Visits(Struct(fields), false) == []
  {
    PlainFieldsVisitNothing(fields);
  }

  lemma {:induction false} PlainFieldsVisitNothing(fields: seq<Field>)
    requires forall i :: 0 <= i < |fields| ==> !fields[i].value.Pointer?
    ensures FieldVisits(fields, false) == []
  {
    if fields != [] {
      PlainFieldsVisitNothing(fields[..|fields| - 1]);
    }
  }

  /** On ASCII texts a second walk changes nothing, even where several pointers lead to one location. */
  lemma {:induction false} WalkIdempotent(v: Value, addressable: bool, c: Cell, text: string)
    requires Ascii(text)
    ensures var visits := Visits(v, addressable);
            After(visits, c, After(visits, c, text)) == After(visits, c, text)
  {
    ApplyAllIdempotent(RulesFor(Visits(v, addressable), c), text);
  }

  // --- What the log shows ---

  /** What becomes of the text at a path. */
  function Shown(path: seq<Step>, text: string): string {
    if Open(path) && RuleAt(path).Some? then Transform(RuleAt(path).value, text) else text
  }

  lemma {:induction false} LeavesAreCells(v: Value, path: seq<Step>)
    ensures |Leaves(v, path)| == |Cells(v)|
    ensures forall k :: 0 <= k < |Cells(v)| ==> Leaves(v, path)[k].cell == Cells(v)[k]
    decreases v, 0
  {
    match v
    case Struct(fields) => FieldLeavesAreCells(fields, path);
    case Slice(elems) => SliceLeavesAreCells(elems, path);
    case Pointer(target) => LeavesAreCells(target, path + [Deref]);
    case _ =>
  }

  lemma {:induction false} FieldLeavesAreCells(fields: seq<Field>, path: seq<Step>)
    ensures |FieldLeaves(fields, path)| == |FieldCells(fields)|
    ensures forall k :: 0 <= k < |FieldCells(fields)| ==> FieldLeaves(fields, path)[k].cell == FieldCells(fields)[k]
    decreases fields, 0
  {
    if fields != [] {
      var f := fields[|fields| - 1];
      FieldLeavesAreCells(fields[..|fields| - 1], path);
      LeavesAreCells(f.value, path + [Named(f.name, f.exported)]);
    }
  }

  lemma {:induction false} SliceLeavesAreCells(elems: seq<Value>, path: seq<Step>)
    ensures |SliceLeaves(elems, path)| == |SliceCells(elems)|
    ensures forall k :: 0 <= k < |SliceCells(elems)| ==> SliceLeaves(elems, path)[k].cell == SliceCells(elems)[k]
    decreases elems, 0
  {
    if elems != [] {
      SliceLeavesAreCells(elems[..|elems| - 1], path);
      LeavesAreCells(elems[|elems| - 1], path + [Index]);
    }
  }

  lemma {:induction false} OthersUnselected(leaves: seq<Leaf>, c: Cell, text: string)
    requires forall k :: 0 <= k < |leaves| ==> leaves[k].cell != c
    ensures After(Select(leaves), c, text) == text
  {
    if leaves != [] {
      var before, last := leaves[..|leaves| - 1], leaves[|leaves| - 1];
      OthersUnselected(before, c, text);
      AfterAppend(Select(before), Selected(last), c, text);
      AfterSelected(last, c, text);
    }
  }

  lemma {:induction false} AfterSelected(leaf: Leaf, c: Cell, text: string)
    ensures After(Selected(leaf), c, text) == if c == leaf.cell then Shown(leaf.path, text) else text
  {
    if Selected(leaf) != [] {
      AfterOne(leaf.cell, RuleAt(leaf.path).value, c, text);
    }
  }

  lemma {:induction false} SelectedOnce(leaves: seq<Leaf>, k: nat, text: string)
    requires forall i, j :: 0 <= i < j < |leaves| ==> leaves[i].cell != leaves[j].cell
    requires k < |leaves|
    ensures After(Select(leaves), leaves[k].cell, text) == Shown(leaves[k].path, text)
  {
    var n := |leaves| - 1;
    var before, last := leaves[..n], leaves[n];
    AfterAppend(Select(before), Selected(last), leaves[k].cell, text);
    if k < n {
      SelectedOnce(before, k, text);
      AfterSelected(last, leaves[k].cell, Shown(leaves[k].path, text));
    } else {
      OthersUnselected(before, last.cell, text);
      AfterSelected(last, last.cell, text);
    }
  }

  /**
   * In a value without aliases every string location ends as its own path says: masked once by the
   * rule of its field if the path is open, and as it was otherwise.
   */
  lemma {:induction false} TreeMasks(v: Value, k: nat, text: string)
    requires Distinct(Cells(v)) && k < |Cells(v)|
    ensures |Leaves(v, [])| == |Cells(v)|
    ensures var leaf := Leaves(v, [])[k];
            leaf.cell == Cells(v)[k] && After(Visits(v, false), leaf.cell, text) == Shown(leaf.path, text)
  {
    LeavesAreCells(v, []);
    MasksExactly(v);
    SelectedOnce(Leaves(v, []), k, text);
  }

  lemma {:induction false} FieldPathOpen(name: string)
    ensures Open([Deref, Named(name, true)]) && RuleAt([Deref, Named(name, true)]) == RuleOf(name)
  {
    var path := [Deref, Named(name, true)];
    assert !path[0].Named?;
    assert Addressable(path, 1);
    assert !Blocked(path, 0) && !Blocked(path, 1);
  }

  /** What a field of a message shows, by its name: stars for each byte, a phone number's ends, or all of it. */
  lemma {:induction false} FieldShows(name: string, text: string)
    ensures var shown := Shown([Deref, Named(name, true)], text);
            && (name == "password" || name == "Password" ==>
                  |shown| == ByteLen(text) && forall i :: 0 <= i < |shown| ==> shown[i] == '*')
            && (name == "phone" || name == "Phone" ==>
                  && |shown| == |text|
                  && var front := if ByteLen(text) >= 10 then 3 else 2;
                     forall i :: 0 <= i < |text| ==> shown[i] == if front <= i < |text| - 2 then '*' else text[i])
            && (name !in ["password", "Password", "phone", "Phone"] ==> shown == text)
  {
    FieldPathOpen(name);
  }

  // --- Masking a copy ---

  /** The same value but for where its texts are kept. */
  predicate SameShape(v: Value, w: Value)
    decreases v, 0
  {
    match v
    case Text(_) => w.Text?
    case Struct(fields) => w.Struct? && SameFields(fields, w.fields)
    case Slice(elems) => w.Slice? && SameElems(elems, w.elems)
    case Pointer(target) => w.Pointer? && SameShape(target, w.target)
    case _ => v == w
  }

  predicate SameFields(fields: seq<Field>, others: seq<Field>)
    decreases fields, 0
  {
    && |fields| == |others|
    && (fields == [] ||
        (var n := |fields| - 1;
         && SameFields(fields[..n], others[..n])
         && fields[n].name == others[n].name && fields[n].exported == others[n].exported
         && SameShape(fields[n].value, others[n].value)))
  }

  predicate SameElems(elems: seq<Value>, others: seq<Value>)
    decreases elems, 0
  {
    && |elems| == |others|
    && (elems == [] ||
        (var n := |elems| - 1;
         SameElems(elems[..n], others[..n]) && SameShape(elems[n], others[n])))
  }

  ghost predicate EqualPaths(leaves: seq<Leaf>, others: seq<Leaf>) {
    |leaves| == |others| && forall k :: 0 <= k < |leaves| ==> leaves[k].path == others[k].path
  }

  lemma {:induction false} EqualPathsAppend(a: seq<Leaf>, b: seq<Leaf>, c: seq<Leaf>, d: seq<Leaf>)
    requires EqualPaths(a, b) && EqualPaths(c, d)
    ensures EqualPaths(a + c, b + d)
  {
  }

  lemma {:induction false} SamePaths(v: Value, w: Value, path: seq<Step>)
    requires SameShape(v, w)
    ensures EqualPaths(Leaves(v, path), Leaves(w, path))
    decreases v, 0
  {
    match v
    case Struct(fields) => SameFieldPaths(fields, w.fields, path);
    case Slice(elems) => SameElemPaths(elems, w.elems, path);
    case Pointer(target) => SamePaths(target, w.target, path + [Deref]);
    case _ =>
  }

  lemma {:induction false} SameFieldPaths(fields: seq<Field>, others: seq<Field>, path: seq<Step>)
    requires SameFields(fields, others)
    ensures EqualPaths(FieldLeaves(fields, path), FieldLeaves(others, path))
    decreases fields, 0
  {
    if fields != [] {
      var n := |fields| - 1;
      var longer := path + [Named(fields[n].name, fields[n].exported)];
      SameFieldPaths(fields[..n], others[..n], path);
      SamePaths(fields[n].value, others[n].value, longer);
      EqualPathsAppend(FieldLeaves(fields[..n], path), FieldLeaves(others[..n], path),
                       Leaves(fields[n].value, longer), Leaves(others[n].value, longer));
    }
  }

  lemma {:induction false} SameElemPaths(elems: seq<Value>, others: seq<Value>, path: seq<Step>)
    requires SameElems(elems, others)
    ensures EqualPaths(SliceLeaves(elems, path), SliceLeaves(others, path))
    decreases elems, 0
  {
    if elems != [] {
      var n := |elems| - 1;
      SameElemPaths(elems[..n], others[..n], path);
      SamePaths(elems[n], others[n], path + [Index]);
      EqualPathsAppend(SliceLeaves(elems[..n], path), SliceLeaves(others[..n], path),
                       Leaves(elems[n], path + [Index]), Leaves(others[n], path + [Index]));
    }
  }

  /** The copies hold what the originals hold, each in a place of its own. */
  ghost predicate Copied(from: seq<Cell>, to: seq<Cell>)
    reads from, to
  {
    && |from| == |to| && Distinct(to)
    && forall k :: 0 <= k < |from| ==> to[k].text == from[k].text
  }

  lemma {:induction false} CopiedAppend(from: seq<Cell>, to: seq<Cell>, more: seq<Cell>, others: seq<Cell>)
    requires Copied(from, to) && Copied(more, others) && forall c :: c in to ==> c !in others
    ensures Copied(from + more, to + others)
  {
    var all := to + others;
    forall i, j | 0 <= i < j < |all|
      ensures all[i] != all[j]
    {
      if i < |to| <= j {
        assert to[i] in to && others[j - |to|] in others;
      }
    }
  }

  /** `proto.Clone`: a copy that shares nothing with the message, aliased or not. */
  method Clone(v: Value, ghost cells: set<Cell>) returns (w: Value, ghost made: set<Cell>)
    requires Among(Cells(v), cells)
    ensures SameShape(v, w) && Copied(Cells(v), Cells(w))
    ensures Among(Cells(w), made) && fresh(made)
    decreases v, 0
  {
    match v
    case Text(cell) =>
      var copy := new Cell(cell.text);
      w, made := Text(copy), {copy};
    case Struct(fields) =>
      var copies;
      copies, made := CloneFields(fields, cells);
      w := Struct(copies);
    case Slice(elems) =>
      var copies;
      copies, made := CloneElems(elems, cells);
      w := Slice(copies);
    case Pointer(target) =>
      var copy;
      copy, made := Clone(target, cells);
      w := Pointer(copy);
    case _ => w, made := v, {};
  }

  method CloneFields(fields: seq<Field>, ghost cells: set<Cell>) returns (copies: seq<Field>, ghost made: set<Cell>)
    requires Among(FieldCells(fields), cells)
    ensures SameFields(fields, copies) && Copied(FieldCells(fields), FieldCells(copies))
    ensures Among(FieldCells(copies), made) && fresh(made)
    decreases fields, 0
  {
    if fields == [] {
      return [], {};
    }
    var n := |fields| - 1;
    var init, before := CloneFields(fields[..n], cells);
    var value, last := Clone(fields[n].value, cells);
    assert Among(FieldCells(fields[..n]), cells);
    forall k | 0 <= k < |FieldCells(init)|
      ensures FieldCells(init)[k].text == FieldCells(fields[..n])[k].text
    {
      assert FieldCells(init)[k] in before && FieldCells(fields[..n])[k] in cells;
    }
    CopiedAppend(FieldCells(fields[..n]), FieldCells(init), Cells(fields[n].value), Cells(value));
    copies, made := init + [fields[n].(value := value)], before + last;
    assert copies[..n] == init;
  }

  method CloneElems(elems: seq<Value>, ghost cells: set<Cell>) returns (copies: seq<Value>, ghost made: set<Cell>)
    requires Among(SliceCells(elems), cells)
    ensures SameElems(elems, copies) && Copied(SliceCells(elems), SliceCells(copies))
    ensures Among(SliceCells(copies), made) && fresh(made)
    decreases elems, 0
  {
    if elems == [] {
      return [], {};
    }
    var n := |elems| - 1;
    var init, before := CloneElems(elems[..n], cells);
    var value, last := Clone(elems[n], cells);
    assert Among(SliceCells(elems[..n]), cells);
    forall k | 0 <= k < |SliceCells(init)|
      ensures SliceCells(init)[k].text == SliceCells(elems[..n])[k].text
    {
      assert SliceCells(init)[k] in before && SliceCells(elems[..n])[k] in cells;
    }
    CopiedAppend(SliceCells(elems[..n]), SliceCells(init), Cells(elems[n]), Cells(value));
    copies, made := init + [value], before + last;
    assert copies[..n] == init;
  }

  /**
   * What is logged of a message: a copy in which each text is shown as its path says. The message
   * itself keeps every text.
   */
  method Desensitize(v: Value, ghost cells: set<Cell>) returns (copy: Value)
    requires Among(Cells(v), cells)
    ensures SameShape(v, copy) && |Leaves(copy, [])| == |Leaves(v, [])|
    ensures forall k :: 0 <= k < |Leaves(v, [])| ==>
              var from, to := Leaves(v, [])[k], Leaves(copy, [])[k];
              to.path == from.path && fresh(to.cell) && to.cell.text == Shown(from.path, from.cell.text)
    ensures forall c :: c in cells ==> c.text == old(c.text)
  {
    ghost var made;
    copy, made := Clone(v, cells);
    FindAndTransform(copy, false, made);
    SamePaths(v, copy, []);
    LeavesAreCells(v, []);
    LeavesAreCells(copy, []);
    forall k | 0 <= k < |Leaves(v, [])|
      ensures Leaves(copy, [])[k].cell.text == Shown(Leaves(v, [])[k].path, Leaves(v, [])[k].cell.text)
    {
      assert Cells(v)[k] in cells && Cells(copy)[k] in made;
      TreeMasks(copy, k, Cells(v)[k].text);
    }
  }
}
