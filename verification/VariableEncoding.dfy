/**
 Contract variable snapshots (structures/typed_encoding.go): a count and two tagged fields per
 variable, decoded in two passes whose strings share one buffer.
 */
module VariableEncoding {
  import opened Bytes
  import opened IndexTypes
  import opened TypedEncoding

  const TAG_VARIABLES := 2
  const VARIABLES_HEADER: nat := 5
  const KIND_STRING := 1
  const KIND_UINT64 := 2

  datatype Field = Text(s: bytes) | Number(u: nat)
  datatype Var = Var(key: Field, value: Field)

  datatype FieldAt = FieldAt(field: Field, next: nat)

  /** readVarField: the plain field decoder. */
  function ReadVarField(b: bytes, pos: nat): (r: Option<FieldAt>)
    ensures r.Some? ==> pos + 2 <= r.value.next <= |b|
  {
    if pos >= |b| then None
    else if b[pos] == KIND_STRING then
      var n := ReadUvarint(b[pos + 1..]);
      if n.size == 0 then None
      else
        var p := pos + 1 + n.size;
        if n.value > |b| - p then None else Some(FieldAt(Text(b[p..p + n.value]), p + n.value))
    else if b[pos] == KIND_UINT64 then
      if pos + 9 > |b| then None else Some(FieldAt(Number(FromBigEndian(b[pos + 1..pos + 9])), pos + 9))
    else None
  }

  datatype VarLoc = BadField | TextAt(start: nat, end: nat) | NumberAt(u: nat, next: nat)

  /** locVarField: the same field without the copy. */
  function LocVarField(b: bytes, pos: nat): (l: VarLoc)
    ensures l.TextAt? ==> pos + 2 <= l.start <= l.end <= |b|
  {
    if pos >= |b| then BadField
    else if b[pos] == KIND_STRING then
      var n := ReadUvarint(b[pos + 1..]);
      if n.size == 0 then BadField
      else
        var p := pos + 1 + n.size;
        if n.value > |b| - p then BadField else TextAt(p, p + n.value)
    else if b[pos] == KIND_UINT64 then
      if pos + 9 > |b| then BadField else NumberAt(FromBigEndian(b[pos + 1..pos + 9]), pos + 9)
    else BadField
  }

  function NextOf(l: VarLoc): nat
    requires !l.BadField?
  {
    if l.TextAt? then l.end else l.next
  }

  function FieldFrom(b: bytes, l: VarLoc): Field
    requires !l.BadField? && (l.TextAt? ==> l.start <= l.end <= |b|)
  {
    if l.TextAt? then Text(b[l.start..l.end]) else Number(l.u)
  }

  /** The two field decoders agree on every input and position. */
  lemma Lockstep(b: bytes, pos: nat)
    ensures var l := LocVarField(b, pos);
            ReadVarField(b, pos) == if l.BadField? then None else Some(FieldAt(FieldFrom(b, l), NextOf(l)))
  {
    hide FromBigEndian, ReadUvarint;
  }

  datatype Vars = Vars(vars: seq<Var>, next: nat)

  /** n variables from pos on, field by field. */
  function ReadVars(b: bytes, pos: nat, n: nat): (r: Option<Vars>)
    ensures r.Some? ==> |r.value.vars| == n && pos + 4 * n <= r.value.next && (pos <= |b| ==> r.value.next <= |b|)
    decreases n
  {
    if n == 0 then Some(Vars([], pos))
    else
      match ReadVarField(b, pos)
      case None => None
      case Some(k) =>
        match ReadVarField(b, k.next)
        case None => None
        case Some(v) =>
          match ReadVars(b, v.next, n - 1)
          case None => None
          case Some(rest) => Some(Vars([Var(k.field, v.field)] + rest.vars, rest.next))
  }

  /** The plain decoder of a whole snapshot, without any early bound on the declared count. */
  function DecodeVars(b: bytes): Option<seq<Var>> {
    if |b| < VARIABLES_HEADER || b[0] != TAG_VARIABLES then None
    else
      match ReadVars(b, VARIABLES_HEADER, FromBigEndian(b[1..5]))
      case None => None
      case Some(r) => Some(r.vars)
  }

  /** A count past a quarter of the remaining bytes cannot be met: a variable takes four bytes. */
  lemma EarlyBoundRejectsOnlyBad(b: bytes)
    requires |b| >= VARIABLES_HEADER && FromBigEndian(b[1..5]) * 4 > |b| - VARIABLES_HEADER
    ensures DecodeVars(b) == None
  {
    hide ReadVars, FromBigEndian;
  }

  // ---------- Encoding ----------

  /** An in-memory value: unknown types are stored as a best-effort string. */
  datatype Raw = RawText(s: bytes) | RawNumber(u: nat) | RawOther(best: bytes)
  datatype RawVar = RawVar(key: Raw, value: Raw)

  predicate ValidRaw(r: Raw) {
    match r
    case RawText(s) => |s| < MAX_U64
    case RawNumber(u) => u < MAX_U64
    case RawOther(s) => |s| < MAX_U64
  }

  predicate ValidRaws(vars: seq<RawVar>) {
    |vars| < 0x1_0000_0000 && forall i | 0 <= i < |vars| :: ValidRaw(vars[i].key) && ValidRaw(vars[i].value)
  }

  /** What a value reads back as. */
  function Stored(r: Raw): Field {
    match r
    case RawText(s) => Text(s)
    case RawNumber(u) => Number(u)
    case RawOther(s) => Text(s)
  }

  function StoredVars(vars: seq<RawVar>): (r: seq<Var>)
    ensures |r| == |vars|
  {
    seq(|vars|, i requires 0 <= i < |vars| => Var(Stored(vars[i].key), Stored(vars[i].value)))
  }

  function EncodeField(r: Raw): bytes {
    match r
    case RawText(s) => [KIND_STRING] + LenString(s)
    case RawNumber(u) => [KIND_UINT64] + BigEndian(u, 8)
    case RawOther(s) => [KIND_STRING] + LenString(s)
  }

  function EncodeFields(vars: seq<RawVar>): bytes {
    if vars == [] then []
    else EncodeField(vars[0].key) + EncodeField(vars[0].value) + EncodeFields(vars[1..])
  }

  function EncodeVars(vars: seq<RawVar>): bytes {
    [TAG_VARIABLES] + BigEndian(|vars|, 4) + EncodeFields(vars)
  }

  lemma FieldRoundTrip(b: bytes, pos: nat, r: Raw)
    requires ValidRaw(r) && Holds(b, pos, EncodeField(r))
    ensures ReadVarField(b, pos) == Some(FieldAt(Stored(r), pos + |EncodeField(r)|))
  {
    if r.RawNumber? {
      NumberRoundTrip(b, pos, r.u);
    } else {
      TextRoundTrip(b, pos, if r.RawText? then r.s else r.best);
    }
    hide ReadVarField, BigEndian, FromBigEndian, Uvarint;
  }

  lemma NumberRoundTrip(b: bytes, pos: nat, u: nat)
    requires u < MAX_U64 && Holds(b, pos, [KIND_UINT64] + BigEndian(u, 8))
    ensures ReadVarField(b, pos) == Some(FieldAt(Number(u), pos + 9))
  {
    HoldsParts(b, pos, [KIND_UINT64], BigEndian(u, 8));
    Pow256Eight();
    BigEndianRoundTrip(u, 8);
    hide BigEndian, FromBigEndian, ReadUvarint, Uvarint;
    assert b[pos..pos + 1][0] == b[pos];
    assert b[pos + 1..pos + 9] == BigEndian(u, 8);
  }

  lemma TextRoundTrip(b: bytes, pos: nat, s: bytes)
    requires |s| < MAX_U64 && Holds(b, pos, [KIND_STRING] + LenString(s))
    ensures ReadVarField(b, pos) == Some(FieldAt(Text(s), pos + 1 + |LenString(s)|))
  {
    HoldsParts(b, pos, [KIND_STRING], LenString(s));
    HoldsParts(b, pos + 1, Uvarint(|s|), s);
    UvarintAt(b, pos + 1, |s|);
    hide BigEndian, FromBigEndian, ReadUvarint, Uvarint;
    assert b[pos..pos + 1][0] == b[pos];
  }

  lemma HeadVar(b: bytes, pos: nat, vars: seq<RawVar>)
    requires vars != [] && Holds(b, pos, EncodeFields(vars))
    ensures var k, v := EncodeField(vars[0].key), EncodeField(vars[0].value);
            && Holds(b, pos, k) && Holds(b, pos + |k|, v) && Holds(b, pos + |k| + |v|, EncodeFields(vars[1..]))
            && |EncodeFields(vars)| == |k| + |v| + |EncodeFields(vars[1..])|
  {
    hide EncodeField;
    var k, v := EncodeField(vars[0].key), EncodeField(vars[0].value);
    HoldsParts(b, pos, k + v, EncodeFields(vars[1..]));
    HoldsParts(b, pos, k, v);
  }

  lemma NoVars(b: bytes, pos: nat)
    ensures ReadVars(b, pos, 0) == Some(Vars([], pos)) && EncodeFields([]) == [] && StoredVars([]) == []
  {
  }

  lemma ConsVars(b: bytes, pos: nat, vars: seq<RawVar>, mid: nat, at: nat, next: nat)
    requires vars != []
    requires ReadVarField(b, pos) == Some(FieldAt(Stored(vars[0].key), mid))
    requires ReadVarField(b, mid) == Some(FieldAt(Stored(vars[0].value), at))
    requires ReadVars(b, at, |vars| - 1) == Some(Vars(StoredVars(vars[1..]), next))
    ensures ReadVars(b, pos, |vars|) == Some(Vars(StoredVars(vars), next))
  {
    hide ReadVarField, Stored;
    assert StoredVars(vars) == [Var(Stored(vars[0].key), Stored(vars[0].value))] + StoredVars(vars[1..]);
  }

  lemma {:induction false} VarsRoundTrip(b: bytes, pos: nat, vars: seq<RawVar>)
    requires forall i | 0 <= i < |vars| :: ValidRaw(vars[i].key) && ValidRaw(vars[i].value)
    requires Holds(b, pos, EncodeFields(vars))
    ensures ReadVars(b, pos, |vars|) == Some(Vars(StoredVars(vars), pos + |EncodeFields(vars)|))
    decreases |vars|
  {
    hide *;
    if vars == [] {
      NoVars(b, pos);
    } else {
      var k, v := EncodeField(vars[0].key), EncodeField(vars[0].value);
      HeadVar(b, pos, vars);
      FieldRoundTrip(b, pos, vars[0].key);
      FieldRoundTrip(b, pos + |k|, vars[0].value);
      var at := pos + |k| + |v|;
      VarsRoundTrip(b, at, vars[1..]);
      ConsVars(b, pos, vars, pos + |k|, at, at + |EncodeFields(vars[1..])|);
    }
  }

  /** Decoding an encoded snapshot gives back every variable in order. */
  lemma SnapshotRoundTrip(vars: seq<RawVar>)
    requires ValidRaws(vars)
    ensures DecodeVars(EncodeVars(vars)) == Some(StoredVars(vars))
  {
    var b, count := EncodeVars(vars), BigEndian(|vars|, 4);
    assert Holds(b, 0, [TAG_VARIABLES] + count + EncodeFields(vars));
    HoldsParts(b, 0, [TAG_VARIABLES] + count, EncodeFields(vars));
    HoldsParts(b, 0, [TAG_VARIABLES], count);
    Pow256Eight();
    BigEndianRoundTrip(|vars|, 4);
    VarsRoundTrip(b, VARIABLES_HEADER, vars);
    hide ReadVars, BigEndian, FromBigEndian, EncodeFields, StoredVars;
    assert b[0] == TAG_VARIABLES && b[1..5] == count;
  }

  /** sizeVarField: the bytes appendVarField writes. */
  method SizeVarField(r: Raw) returns (size: nat)
    ensures size == |EncodeField(r)|
  {
    match r {
      case RawText(s) =>
        var n := UvarintLen(|s|);
        size := 1 + n + |s|;
      case RawNumber(_) =>
        size := 1 + 8;
      case RawOther(s) =>
        var n := UvarintLen(|s|);
        size := 1 + n + |s|;
    }
  }

  lemma EncodeMore(vars: seq<RawVar>, v: RawVar)
    ensures EncodeFields(vars + [v]) == EncodeFields(vars) + EncodeField(v.key) + EncodeField(v.value)
    decreases |vars|
  {
    hide EncodeField;
    if vars == [] {
      assert [v][1..] == [];
      assert EncodeFields([v][1..]) == [];
    } else {
      EncodeMore(vars[1..], v);
      assert (vars + [v])[1..] == vars[1..] + [v];
    }
  }

  /** The exact sizing pass and the append pass of MarshalSCIDVariablesTyped. */
  method MarshalVariables(vars: seq<RawVar>) returns (out: bytes, capacity: nat)
    ensures out == EncodeVars(vars) && capacity == |out|
  {
    hide EncodeField, EncodeFields;
    capacity := VARIABLES_HEADER;
    var i := 0;
    assert EncodeFields([]) == [] by { NoVars([], 0); }
    while i < |vars|
      invariant i <= |vars| && capacity == VARIABLES_HEADER + |EncodeFields(vars[..i])|
    {
      var k := SizeVarField(vars[i].key);
      var v := SizeVarField(vars[i].value);
      EncodeMore(vars[..i], vars[i]);
      assert vars[..i + 1] == vars[..i] + [vars[i]];
      capacity, i := capacity + k + v, i + 1;
    }
    assert vars[..i] == vars;
    out := [TAG_VARIABLES] + BigEndian(|vars|, 4);
    ghost var header := out;
    i := 0;
    while i < |vars|
      invariant i <= |vars| && out == header + EncodeFields(vars[..i])
    {
      EncodeMore(vars[..i], vars[i]);
      assert vars[..i + 1] == vars[..i] + [vars[i]];
      out, i := out + EncodeField(vars[i].key) + EncodeField(vars[i].value), i + 1;
    }
    assert vars[..i] == vars;
  }

  // ---------- The coalescing decoder ----------

  /** A decoded value: a view into the shared buffer, or a number. */
  datatype Cell = View(slice: Slice) | Num(u: nat)
  datatype VarCell = VarCell(key: Cell, value: Cell)

  function TextLen(f: Field): nat { if f.Text? then |f.s| else 0 }

  function TextTotal(vars: seq<Var>): nat {
    if vars == [] then 0
    else
      var v := vars[|vars| - 1];
      TextTotal(vars[..|vars| - 1]) + TextLen(v.key) + TextLen(v.value)
  }

  predicate CellWithin(c: Cell, bound: nat) { c.View? ==> c.slice.off + c.slice.len <= bound }

  ghost predicate CellsWithin(cells: seq<VarCell>, bound: nat) {
    forall i | 0 <= i < |cells| :: CellWithin(cells[i].key, bound) && CellWithin(cells[i].value, bound)
  }

  function FieldOf(buf: bytes, c: Cell): Field
    requires CellWithin(c, |buf|)
  {
    match c
    case View(slice) => Text(buf[slice.off..slice.off + slice.len])
    case Num(u) => Number(u)
  }

  ghost function VarsOf(buf: bytes, cells: seq<VarCell>): (vars: seq<Var>)
    requires CellsWithin(cells, |buf|)
    ensures |vars| == |cells|
  {
    seq(|cells|, i requires 0 <= i < |cells| => Var(FieldOf(buf, cells[i].key), FieldOf(buf, cells[i].value)))
  }

  function CellLen(c: Cell): nat { if c.View? then c.slice.len else 0 }

  /** The cell's view, if any, starts at off. */
  predicate StartsAt(c: Cell, off: nat) { c.View? ==> c.slice.off == off }

  /** The views fill the buffer up to `end` in order, without gap or overlap. */
  ghost predicate Filled(cells: seq<VarCell>, end: nat) {
    if cells == [] then end == 0
    else
      var c := cells[|cells| - 1];
      var len := CellLen(c.key) + CellLen(c.value);
      && len <= end && StartsAt(c.key, end - len) && StartsAt(c.value, end - CellLen(c.value))
      && Filled(cells[..|cells| - 1], end - len)
  }

  lemma VarsOfMore(buf: bytes, cells: seq<VarCell>, c: VarCell)
    requires CellsWithin(cells, |buf|) && CellWithin(c.key, |buf|) && CellWithin(c.value, |buf|)
    ensures CellsWithin(cells + [c], |buf|)
    ensures VarsOf(buf, cells + [c]) == VarsOf(buf, cells) + [Var(FieldOf(buf, c.key), FieldOf(buf, c.value))]
  {
    hide FieldOf;
  }

  lemma FieldKept(before: bytes, after: bytes, c: Cell, bound: nat)
    requires |before| == |after| && bound <= |before| && before[..bound] == after[..bound] && CellWithin(c, bound)
    ensures FieldOf(before, c) == FieldOf(after, c)
  {
    if c.View? {
      var lo, hi := c.slice.off, c.slice.off + c.slice.len;
      assert before[lo..hi] == before[..bound][lo..hi] && after[lo..hi] == after[..bound][lo..hi];
    }
  }

  lemma VarsKept(before: bytes, after: bytes, cells: seq<VarCell>, bound: nat)
    requires |before| == |after| && bound <= |before| && before[..bound] == after[..bound] && CellsWithin(cells, bound)
    ensures VarsOf(before, cells) == VarsOf(after, cells)
  {
    hide FieldOf;
    forall i | 0 <= i < |cells| ensures VarsOf(before, cells)[i] == VarsOf(after, cells)[i] {
      FieldKept(before, after, cells[i].key, bound);
      FieldKept(before, after, cells[i].value, bound);
    }
  }

  /** left more variables at p complete those already read to what a read from pos gives. */
  ghost predicate VarsContinue(b: bytes, pos: nat, n: nat, done: seq<Var>, p: nat, left: nat) {
    ReadVars(b, pos, n) ==
    match ReadVars(b, p, left) case None => None case Some(r) => Some(Vars(done + r.vars, r.next))
  }

  lemma VarsContinueStart(b: bytes, pos: nat, n: nat)
    ensures VarsContinue(b, pos, n, [], pos, n)
  {
    if ReadVars(b, pos, n).Some? {
      assert [] + ReadVars(b, pos, n).value.vars == ReadVars(b, pos, n).value.vars;
    }
  }

  lemma VarsContinueStep(b: bytes, pos: nat, n: nat, done: seq<Var>, p: nat, left: nat)
    requires VarsContinue(b, pos, n, done, p, left) && left >= 1
    ensures ReadVarField(b, p) == None ==> ReadVars(b, pos, n) == None
    ensures var k := ReadVarField(b, p);
            k.Some? && ReadVarField(b, k.value.next) == None ==> ReadVars(b, pos, n) == None
    ensures var k := ReadVarField(b, p);
            k.Some? && ReadVarField(b, k.value.next).Some? ==>
              var v := ReadVarField(b, k.value.next).value;
              VarsContinue(b, pos, n, done + [Var(k.value.field, v.field)], v.next, left - 1)
  {
    hide ReadVarField;
    var k := ReadVarField(b, p);
    if k.Some? && ReadVarField(b, k.value.next).Some? {
      var v := ReadVarField(b, k.value.next).value;
      if ReadVars(b, v.next, left - 1).Some? {
        var x, rest := Var(k.value.field, v.field), ReadVars(b, v.next, left - 1).value.vars;
        assert done + ([x] + rest) == (done + [x]) + rest;
      }
    }
  }

  lemma VarsContinueEnd(b: bytes, pos: nat, n: nat, done: seq<Var>, p: nat)
    requires VarsContinue(b, pos, n, done, p, 0)
    ensures ReadVars(b, pos, n) == Some(Vars(done, p))
  {
    assert done + [] == done;
  }

  lemma TextMore(vars: seq<Var>, v: Var)
    ensures TextTotal(vars + [v]) == TextTotal(vars) + TextLen(v.key) + TextLen(v.value)
  {
    assert (vars + [v])[..|vars|] == vars;
  }

  lemma {:induction false} TextCat(x: seq<Var>, y: seq<Var>)
    ensures TextTotal(x + y) == TextTotal(x) + TextTotal(y)
  {
    hide TextLen;
    if y == [] {
      assert x + y == x;
    } else {
      TextCat(x, y[..|y| - 1]);
      assert x + y == (x + y[..|y| - 1]) + [y[|y| - 1]];
      TextMore(x + y[..|y| - 1], y[|y| - 1]);
    }
  }

  /** The extent of one located field as its field length. */
  lemma LocLen(b: bytes, pos: nat)
    requires ReadVarField(b, pos).Some?
    ensures var l := LocVarField(b, pos);
            && !l.BadField? && NextOf(l) == ReadVarField(b, pos).value.next
            && TextLen(ReadVarField(b, pos).value.field) == (if l.TextAt? then l.end - l.start else 0)
  {
    Lockstep(b, pos);
    hide ReadVarField, LocVarField;
  }

  datatype VarAt = VarAt(v: Var, next: nat)

  /** The two fields of one variable, from p on. */
  function ReadVar(b: bytes, p: nat): (r: Option<VarAt>)
    ensures r.Some? ==> r.value.next <= |b|
  {
    match ReadVarField(b, p)
    case None => None
    case Some(k) =>
      match ReadVarField(b, k.next)
      case None => None
      case Some(v) => Some(VarAt(Var(k.field, v.field), v.next))
  }

  lemma VarStep(b: bytes, pos: nat, n: nat, done: seq<Var>, p: nat, left: nat)
    requires VarsContinue(b, pos, n, done, p, left) && left >= 1
    ensures ReadVar(b, p) == None ==> ReadVars(b, pos, n) == None
    ensures ReadVar(b, p).Some? ==>
              var r := ReadVar(b, p).value; VarsContinue(b, pos, n, done + [r.v], r.next, left - 1)
  {
    hide VarsContinue, ReadVars, ReadVarField;
    VarsContinueStep(b, pos, n, done, p, left);
  }

  /** Pass 1 over one variable: both fields validated, the string bytes summed. */
  method SumVar(b: bytes, start: nat) returns (ok: bool, sum: nat, p: nat)
    ensures ok == ReadVar(b, start).Some?
    ensures ok ==> var r := ReadVar(b, start).value; p == r.next && sum == TextLen(r.v.key) + TextLen(r.v.value)
  {
    hide ReadVarField, LocVarField, TextLen;
    ghost var k := ReadVarField(b, start);
    sum, p := 0, start;
    var f := 0;
    while f < 2
      invariant f <= 2
      invariant f == 0 ==> p == start && sum == 0
      invariant f >= 1 ==> k.Some?
      invariant f == 1 ==> p == k.value.next && sum == TextLen(k.value.field)
      invariant f == 2 ==> ReadVarField(b, k.value.next).Some? &&
                           (var v := ReadVarField(b, k.value.next).value;
                            p == v.next && sum == TextLen(k.value.field) + TextLen(v.field))
    {
      Lockstep(b, p);
      var l := LocVarField(b, p);
      if l.BadField? {
        return false, 0, 0;
      }
      LocLen(b, p);
      if l.TextAt? {
        sum := sum + (l.end - l.start);
      }
      p := NextOf(l);
      f := f + 1;
    }
    ok := true;
  }

  lemma NothingRead()
    ensures TextTotal([]) == 0 && CellsWithin([], 0) && Filled([], 0)
    ensures forall buf: bytes :: CellsWithin([], |buf|) && VarsOf(buf, []) == []
  {
  }

  /** Pass 1: validates 2n fields and sums the string bytes. */
  method SumVars(b: bytes, n: nat) returns (ok: bool, total: nat)
    ensures ok == ReadVars(b, VARIABLES_HEADER, n).Some?
    ensures ok ==> total == TextTotal(ReadVars(b, VARIABLES_HEADER, n).value.vars)
  {
    hide *;
    total := 0;
    var p: nat, i := VARIABLES_HEADER, 0;
    ghost var done: seq<Var> := [];
    VarsContinueStart(b, VARIABLES_HEADER, n);
    NothingRead();
    while i < n
      invariant i <= n && VarsContinue(b, VARIABLES_HEADER, n, done, p, n - i) && total == TextTotal(done)
    {
      VarStep(b, VARIABLES_HEADER, n, done, p, n - i);
      var varOk, sum, next := SumVar(b, p);
      if !varOk {
        return false, 0;
      }
      ghost var x := ReadVar(b, p).value.v;
      TextMore(done, x);
      total, p, done, i := total + sum, next, done + [x], i + 1;
    }
    VarsContinueEnd(b, VARIABLES_HEADER, n, done, p);
    ok := true;
  }

  /** One located field: a string is cut into the buffer, a number is taken as it is. */
  method CutField(b: bytes, l: VarLoc, sbuf: array<byte>, off: nat) returns (cell: Cell, off': nat)
    requires !l.BadField? && (l.TextAt? ==> l.start <= l.end <= |b| && off + (l.end - l.start) <= sbuf.Length)
    requires off <= sbuf.Length
    modifies sbuf
    ensures off' == off + CellLen(cell) && off' <= sbuf.Length && StartsAt(cell, off)
    ensures CellWithin(cell, off') && FieldOf(sbuf[..], cell) == FieldFrom(b, l)
    ensures CellLen(cell) == TextLen(FieldFrom(b, l))
    ensures sbuf[..off] == old(sbuf[..off])
  {
    if l.TextAt? {
      var slice;
      slice, off' := OwnedCut(sbuf, off, b, l.start, l.end);
      cell := View(slice);
    } else {
      cell, off' := Num(l.u), off;
    }
  }

  /** The strings read so far, and the next variable's, fit in the buffer. */
  lemma VarFits(b: bytes, n: nat, done: seq<Var>, p: nat, left: nat, x: Var)
    requires ReadVars(b, VARIABLES_HEADER, n).Some? && VarsContinue(b, VARIABLES_HEADER, n, done + [x], p, left)
    ensures TextTotal(done) + TextLen(x.key) +
            TextLen(x.value) <= TextTotal(ReadVars(b, VARIABLES_HEADER, n).value.vars)
  {
    hide ReadVars, TextLen;
    TextCat(done + [x], ReadVars(b, p, left).value.vars);
    TextMore(done, x);
  }

  /** One more variable behind the others leaves their strings alone. */
  lemma VarCut(b0: bytes, b1: bytes, b2: bytes, cells: seq<VarCell>, c: VarCell, off: nat, mid: nat, end: nat)
    requires |b0| == |b1| == |b2| && off <= mid <= end <= |b0|
    requires b1[..off] == b0[..off] && b2[..mid] == b1[..mid]
    requires CellsWithin(cells, off) && Filled(cells, off)
    requires CellWithin(c.key, mid) && CellWithin(c.value, end)
    requires StartsAt(c.key, off) && mid == off + CellLen(c.key)
    requires StartsAt(c.value, mid) && end == mid + CellLen(c.value)
    ensures CellsWithin(cells + [c], end) && Filled(cells + [c], end)
    ensures VarsOf(b2, cells + [c]) == VarsOf(b0, cells) + [Var(FieldOf(b1, c.key), FieldOf(b2, c.value))]
  {
    assert b2[..off] == b2[..mid][..off] && b1[..off] == b1[..mid][..off];
    VarsKept(b0, b2, cells, off);
    FieldKept(b1, b2, c.key, mid);
    VarsOfMore(b2, cells, c);
    assert (cells + [c])[..|cells|] == cells;
    hide VarsOf, FieldOf;
  }

  /** Pass 2 over one variable. */
  method CutVar(b: bytes, start: nat, sbuf: array<byte>, off: nat, ghost cells: seq<VarCell>)
    returns (c: VarCell, next: nat, end: nat)
    requires ReadVar(b, start).Some? && CellsWithin(cells, off) && Filled(cells, off)
    requires var x := ReadVar(b, start).value.v; off + TextLen(x.key) + TextLen(x.value) <= sbuf.Length
    modifies sbuf
    ensures var x := ReadVar(b, start).value.v;
            && next == ReadVar(b, start).value.next && end == off + TextLen(x.key) + TextLen(x.value)
            && CellsWithin(cells + [c], end) && Filled(cells + [c], end)
            && VarsOf(sbuf[..], cells + [c]) == VarsOf(old(sbuf[..]), cells) + [x]
  {
    hide ReadVarField, LocVarField, TextLen, CellsWithin, Filled, VarsOf, FieldOf;
    ghost var b0 := sbuf[..];
    Lockstep(b, start);
    LocLen(b, start);
    var l := LocVarField(b, start);
    var key, mid := CutField(b, l, sbuf, off);
    ghost var b1 := sbuf[..];
    Lockstep(b, NextOf(l));
    LocLen(b, NextOf(l));
    var l2 := LocVarField(b, NextOf(l));
    var value;
    value, end := CutField(b, l2, sbuf, mid);
    c, next := VarCell(key, value), NextOf(l2);
    VarCut(b0, b1, sbuf[..], cells, c, off, mid, end);
  }

  /** Pass 2: the same fields again, cut into a buffer of exactly the summed size. */
  method CutVars(b: bytes, n: nat, sbuf: array<byte>) returns (cells: seq<VarCell>)
    requires ReadVars(b, VARIABLES_HEADER, n).Some?
    requires sbuf.Length == TextTotal(ReadVars(b, VARIABLES_HEADER, n).value.vars)
    modifies sbuf
    ensures CellsWithin(cells, sbuf.Length) && Filled(cells, sbuf.Length)
    ensures VarsOf(sbuf[..], cells) == ReadVars(b, VARIABLES_HEADER, n).value.vars
  {
    hide VarsContinue, ReadVars, ReadVar, TextLen, TextTotal, Filled, VarsOf, FieldOf;
    cells := [];
    var off: nat, pos: nat, i := 0, VARIABLES_HEADER, 0;
    ghost var done: seq<Var> := [];
    VarsContinueStart(b, VARIABLES_HEADER, n);
    NothingRead();
    while i < n
      invariant i <= n && VarsContinue(b, VARIABLES_HEADER, n, done, pos, n - i)
      invariant off == TextTotal(done) && off <= sbuf.Length
      invariant CellsWithin(cells, off) && Filled(cells, off) && VarsOf(sbuf[..], cells) == done
    {
      VarStep(b, VARIABLES_HEADER, n, done, pos, n - i);
      ghost var x := ReadVar(b, pos).value.v;
      VarFits(b, n, done, ReadVar(b, pos).value.next, n - i - 1, x);
      TextMore(done, x);
      var c, next, end := CutVar(b, pos, sbuf, off, cells);
      cells, off, pos, done, i := cells + [c], end, next, done + [x], i + 1;
    }
    VarsContinueEnd(b, VARIABLES_HEADER, n, done, pos);
  }

  /**
   UnmarshalSCIDVariablesTyped: on every byte string it accepts what the plain decoder accepts and
   returns the same variables, and its string cuts fill the buffer exactly, in order, once each.
   */
  method UnmarshalVariables(b: bytes) returns (ok: bool, cells: seq<VarCell>, sbuf: array<byte>)
    ensures ok == DecodeVars(b).Some?
    ensures ok ==> CellsWithin(cells, sbuf.Length) && Filled(cells, sbuf.Length)
    ensures ok ==> VarsOf(sbuf[..], cells) == DecodeVars(b).value
  {
    cells, sbuf := [], new byte[0];
    if |b| < VARIABLES_HEADER || b[0] != TAG_VARIABLES {
      return false, cells, sbuf;
    }
    var n := FromBigEndian(b[1..5]);
    if n * 4 > |b| - VARIABLES_HEADER {
      EarlyBoundRejectsOnlyBad(b);
      return false, cells, sbuf;
    }
    hide ReadVars, FromBigEndian, TextTotal, CellsWithin, Filled, VarsOf;
    var valid, total := SumVars(b, n);
    if !valid {
      return false, cells, sbuf;
    }
    sbuf := new byte[total];
    cells := CutVars(b, n, sbuf);
    ok := true;
  }
}
