/**
 * The constant pool (section 4.4 of the Java Virtual Machine Specification):
 * CPInfo's tag-dispatched entry decoder, readConstantPool, and the
 * validation pass with its method-handle rules.
 */
module ConstantPool {
  import opened Bytes

  // Pool-entry tags (CPInfo.java).
  const UTF8: u8 := 1
  const INTEGER: u8 := 3
  const FLOAT: u8 := 4
  const LONG: u8 := 5
  const DOUBLE: u8 := 6
  const CLASS: u8 := 7
  const STRING: u8 := 8
  const FIELD_REF: u8 := 9
  const METHOD_REF: u8 := 10
  const INTERFACE_METHOD_REF: u8 := 11
  const NAME_AND_TYPE: u8 := 12
  const METHOD_HANDLE: u8 := 15
  const METHOD_TYPE: u8 := 16
  const DYNAMIC: u8 := 17
  const INVOKE_DYNAMIC: u8 := 18
  const MODULE: u8 := 19
  const PACKAGE: u8 := 20

  // Method-handle reference kinds.
  const REF_GET_FIELD: u8 := 1
  const REF_GET_STATIC: u8 := 2
  const REF_PUT_FIELD: u8 := 3
  const REF_PUT_STATIC: u8 := 4
  const REF_INVOKE_VIRTUAL: u8 := 5
  const REF_INVOKE_STATIC: u8 := 6
  const REF_INVOKE_SPECIAL: u8 := 7
  const REF_NEW_INVOKE_SPECIAL: u8 := 8
  const REF_INVOKE_INTERFACE: u8 := 9

  /** The first major version at which invokeStatic/invokeSpecial handles
      may name interface methods. */
  const INTERFACE_HANDLE_VERSION := 52

  /** One pool entry. Numeric and floating constants keep their raw bytes. */
  datatype Entry =
    | Utf8(bytes: seq<byte>)
    | Integer(raw: seq<byte>)
    | Float(raw: seq<byte>)
    | Long(raw: seq<byte>)
    | Double(raw: seq<byte>)
    | Class(nameIndex: u16)
    | String(stringIndex: u16)
    | FieldRef(classIndex: u16, nameAndTypeIndex: u16)
    | MethodRef(classIndex: u16, nameAndTypeIndex: u16)
    | InterfaceMethodRef(classIndex: u16, nameAndTypeIndex: u16)
    | NameAndType(nameIndex: u16, descriptorIndex: u16)
    | MethodHandle(referenceKind: u8, referenceIndex: u16)
    | MethodType(descriptorIndex: u16)
    | Dynamic(bootstrapMethodAttrIndex: u16, nameAndTypeIndex: u16)
    | InvokeDynamic(bootstrapMethodAttrIndex: u16, nameAndTypeIndex: u16)
    | Module(nameIndex: u16)
    | Package(nameIndex: u16)
  {
    function Tag(): u8
    {
      match this
      case Utf8(_) => UTF8
      case Integer(_) => INTEGER
      case Float(_) => FLOAT
      case Long(_) => LONG
      case Double(_) => DOUBLE
      case Class(_) => CLASS
      case String(_) => STRING
      case FieldRef(_, _) => FIELD_REF
      case MethodRef(_, _) => METHOD_REF
      case InterfaceMethodRef(_, _) => INTERFACE_METHOD_REF
      case NameAndType(_, _) => NAME_AND_TYPE
      case MethodHandle(_, _) => METHOD_HANDLE
      case MethodType(_) => METHOD_TYPE
      case Dynamic(_, _) => DYNAMIC
      case InvokeDynamic(_, _) => INVOKE_DYNAMIC
      case Module(_) => MODULE
      case Package(_) => PACKAGE
    }

    /** LONG and DOUBLE entries take two pool slots. */
    predicate Wide()
    {
      Long? || Double?
    }
  }

  /** Slots 1 .. count-1 of the pool; slot 0 and the slot after a LONG or
      DOUBLE hold no entry (null in the Java array). */
  type Pool = seq<Option<Entry>>

  /** Slot `i` holds an entry. False for 0, past the end and for empty slots:
      the Java code fails there on a null or an out-of-range index. */
  predicate Occupied(pool: Pool, i: int)
  {
    0 < i < |pool| && pool[i].Some?
  }

  /** The one lookup every validation rule uses: slot `i` exists and holds
      an entry with tag `t`. */
  predicate HasTag(pool: Pool, i: int, t: u8)
  {
    Occupied(pool, i) && pool[i].value.Tag() == t
  }

  predicate IsTag(t: u8)
  {
    t in {UTF8, INTEGER, FLOAT, LONG, DOUBLE, CLASS, STRING, FIELD_REF, METHOD_REF,
          INTERFACE_METHOD_REF, NAME_AND_TYPE, METHOD_HANDLE, METHOD_TYPE, DYNAMIC,
          INVOKE_DYNAMIC, MODULE, PACKAGE}
  }

  /** Payload bytes after the tag byte, for every tag except UTF8. */
  function FixedPayload(t: u8): nat
  {
    if t == INTEGER || t == FLOAT then 4
    else if t == LONG || t == DOUBLE then 8
    else if t == METHOD_HANDLE then 3
    else if t in {STRING, CLASS, MODULE, PACKAGE, METHOD_TYPE} then 2
    else 4
  }

  /** Bytes an entry occupies in the class file: one tag byte plus the
      payload its tag fixes (a u2-prefixed run for UTF8). */
  function EntrySize(e: Entry): nat
  {
    if e.Utf8? then 3 + |e.bytes| else 1 + FixedPayload(e.Tag())
  }

  function IndexEntry(t: u8, x: u16): Entry
    requires t in {STRING, CLASS, MODULE, PACKAGE, METHOD_TYPE}
  {
    if t == STRING then String(x)
    else if t == CLASS then Class(x)
    else if t == MODULE then Module(x)
    else if t == PACKAGE then Package(x)
    else MethodType(x)
  }

  function PairEntry(t: u8, x: u16, y: u16): Entry
    requires t in {FIELD_REF, METHOD_REF, INTERFACE_METHOD_REF, NAME_AND_TYPE, DYNAMIC, INVOKE_DYNAMIC}
  {
    if t == FIELD_REF then FieldRef(x, y)
    else if t == METHOD_REF then MethodRef(x, y)
    else if t == INTERFACE_METHOD_REF then InterfaceMethodRef(x, y)
    else if t == NAME_AND_TYPE then NameAndType(x, y)
    else if t == DYNAMIC then Dynamic(x, y)
    else InvokeDynamic(x, y)
  }

  function RawEntry(t: u8, raw: seq<byte>): Entry
    requires t in {INTEGER, FLOAT, LONG, DOUBLE}
  {
    if t == INTEGER then Integer(raw)
    else if t == FLOAT then Float(raw)
    else if t == LONG then Long(raw)
    else Double(raw)
  }

  /** Where each field of an entry starting at `p` sits after the tag byte:
      u2 indices at p+1 and p+3, the reference kind as the u1 at p+1 followed
      by a u2, raw constants as 4 or 8 bytes, UTF8 as a u2-prefixed run. */
  predicate EntryFields(b: seq<byte>, p: nat, e: Entry)
    requires p + EntrySize(e) <= |b|
  {
    match e
    case Utf8(s) => U2(b, p + 1) == |s| && s == b[p + 3..p + 3 + |s|]
    case Integer(raw) => raw == b[p + 1..p + 5]
    case Float(raw) => raw == b[p + 1..p + 5]
    case Long(raw) => raw == b[p + 1..p + 9]
    case Double(raw) => raw == b[p + 1..p + 9]
    case Class(n) => n == U2(b, p + 1)
    case String(s) => s == U2(b, p + 1)
    case Module(n) => n == U2(b, p + 1)
    case Package(n) => n == U2(b, p + 1)
    case MethodType(d) => d == U2(b, p + 1)
    case FieldRef(c, nt) => c == U2(b, p + 1) && nt == U2(b, p + 3)
    case MethodRef(c, nt) => c == U2(b, p + 1) && nt == U2(b, p + 3)
    case InterfaceMethodRef(c, nt) => c == U2(b, p + 1) && nt == U2(b, p + 3)
    case NameAndType(n, d) => n == U2(b, p + 1) && d == U2(b, p + 3)
    case Dynamic(bm, nt) => bm == U2(b, p + 1) && nt == U2(b, p + 3)
    case InvokeDynamic(bm, nt) => bm == U2(b, p + 1) && nt == U2(b, p + 3)
    case MethodHandle(k, ref) => k == U1(b, p + 1) && ref == U2(b, p + 2)
  }

  /** The CPInfo constructor: one tag byte, then the payload its tag selects.
      It succeeds exactly when the tag is known and the payload is all there;
      the entry carries the tag that was read and takes EntrySize bytes. */
  function ParseEntry(b: seq<byte>, p: nat): (r: Result<Parsed<Entry>>)
    ensures r.Ok? <==> (p < |b| && IsTag(b[p]) &&
                        if b[p] == UTF8 then p + 3 <= |b| && p + 3 + U2(b, p + 1) <= |b|
                        else p + 1 + FixedPayload(b[p]) <= |b|)
    ensures p < |b| && !IsTag(b[p]) ==> r == Err(BadTag)
    ensures r.Ok? ==> (r.value.value.Tag() == b[p] &&
                       r.value.next == p + EntrySize(r.value.value) <= |b|)
    ensures r.Ok? ==> EntryFields(b, p, r.value.value)
  {
    if p >= |b| then Err(Truncated)
    else
      var t := U1(b, p);
      if t == UTF8 then
        match ParseUtf(b, p + 1)
        case Err(e) => Err(e)
        case Ok(Parsed(s, q)) => Ok(Parsed(Utf8(s), q))
      else if t in {INTEGER, FLOAT, LONG, DOUBLE} then
        var n := FixedPayload(t);
        if p + 1 + n <= |b| then Ok(Parsed(RawEntry(t, b[p + 1..p + 1 + n]), p + 1 + n))
        else Err(Truncated)
      else if t in {STRING, CLASS, MODULE, PACKAGE, METHOD_TYPE} then
        if p + 3 <= |b| then Ok(Parsed(IndexEntry(t, U2(b, p + 1)), p + 3))
        else Err(Truncated)
      else if t in {FIELD_REF, METHOD_REF, INTERFACE_METHOD_REF, NAME_AND_TYPE, DYNAMIC, INVOKE_DYNAMIC} then
        if p + 5 <= |b| then Ok(Parsed(PairEntry(t, U2(b, p + 1), U2(b, p + 3)), p + 5))
        else Err(Truncated)
      else if t == METHOD_HANDLE then
        if p + 4 <= |b| then Ok(Parsed(MethodHandle(U1(b, p + 1), U2(b, p + 2)), p + 4))
        else Err(Truncated)
      else
        Err(BadTag)
  }

  // ---------------------------------------------------------------------
  // readConstantPool

  /** The loop of readConstantPool from slot `i` on, with the input at `pos`
      and the slots filled so far: each entry goes into slot `i`, and the
      index moves on by one extra slot after a LONG or DOUBLE. */
  function FillPool(b: seq<byte>, pos: nat, i: nat, slots: Pool): (r: Result<Parsed<Pool>>)
    requires 1 <= i
    ensures r.Ok? ==> |r.value.value| == |slots|
    decreases |slots| - i
  {
    if i >= |slots| then Ok(Parsed(slots, pos))
    else
      match ParseEntry(b, pos)
      case Err(e) => Err(e)
      case Ok(Parsed(e, q)) => FillPool(b, q, if e.Wide() then i + 2 else i + 1, slots[i := Some(e)])
  }

  /** A u2 count, then the entries for slots 1 .. count-1 in a fresh,
      all-empty pool of `count` slots. */
  function ParsePool(b: seq<byte>, p: nat): (r: Result<Parsed<Pool>>)
    ensures r.Ok? ==> p + 2 <= |b| && |r.value.value| == U2(b, p)
  {
    if p + 2 > |b| then Err(Truncated)
    else FillPool(b, p + 2, 1, seq(U2(b, p), _ => None))
  }

  method ReadConstantPool(b: seq<byte>, p: nat) returns (r: Result<Parsed<Pool>>)
    ensures r == ParsePool(b, p)
  {
    if p + 2 > |b| {
      return Err(Truncated);
    }
    var count := U2(b, p);
    var pool := new Option<Entry>[count](_ => None);
    assert pool[..] == seq(count, _ => None);
    var pos: nat := p + 2;
    var i: nat := 1;
    while i < count
      invariant 1 <= i
      invariant FillPool(b, pos, i, pool[..]) == ParsePool(b, p)
      decreases count - i
    {
      var entry := ParseEntry(b, pos);
      if entry.Err? {
        return Err(entry.failure);
      }
      var e := entry.value.value;
      pool[i] := Some(e);
      pos := entry.value.next;
      if e.Wide() {
        i := i + 1;
      }
      i := i + 1;
    }
    return Ok(Parsed(pool[..], pos));
  }

  /** What readConstantPool guarantees about the slots it fills: slot 0 is
      empty, and a slot from 1 on is empty exactly when the slot before it
      holds a LONG or DOUBLE. */
  ghost predicate Shaped(pool: Pool)
  {
    && (|pool| > 0 ==> pool[0].None?)
    && forall j | 1 <= j < |pool| :: pool[j].None? <==> j >= 2 && WideAt(pool, j - 1)
  }

  predicate WideAt(pool: Pool, j: int)
  {
    0 <= j < |pool| && pool[j].Some? && pool[j].value.Wide()
  }

  /** Slot `i` is where the validation walk (and the decoding loop) visits:
      slot 1, or the slot after an ordinary entry, or the second slot after a
      LONG or DOUBLE. */
  predicate EntryStart(pool: Pool, i: nat)
  {
    i >= 1 && !(i >= 2 && WideAt(pool, i - 1))
  }

  /** The part of `slots` that FillPool has already decided: slots below `i`
      are shaped, slot `i` is a visit point, and slots from `i` on are still
      empty. */
  ghost predicate PartlyFilled(slots: Pool, i: nat)
  {
    && (|slots| > 0 ==> slots[0].None?)
    && EntryStart(slots, i)
    && (forall j | 1 <= j < |slots| && j < i :: slots[j].None? <==> j >= 2 && WideAt(slots, j - 1))
    && (forall j | i <= j < |slots| :: slots[j].None?)
  }

  lemma {:induction false} FillPoolShaped(b: seq<byte>, pos: nat, i: nat, slots: Pool)
    requires PartlyFilled(slots, i)
    requires FillPool(b, pos, i, slots).Ok?
    ensures Shaped(FillPool(b, pos, i, slots).value.value)
    decreases |slots| - i
  {
    if i >= |slots| {
      forall j | 1 <= j < |slots|
        ensures slots[j].None? <==> j >= 2 && WideAt(slots, j - 1)
      {
        assert j < i;
      }
    } else {
      var Parsed(e, q) := ParseEntry(b, pos).value;
      var next := if e.Wide() then i + 2 else i + 1;
      var slots' := slots[i := Some(e)];
      forall j | 1 <= j < |slots'| && j < next
        ensures slots'[j].None? <==> j >= 2 && WideAt(slots', j - 1)
      {
        if j < i {
          assert slots'[j] == slots[j];
          if j >= 2 { assert WideAt(slots', j - 1) == WideAt(slots, j - 1); }
        } else if j == i {
          assert WideAt(slots', j - 1) == WideAt(slots, j - 1);
        } else {
          assert j == i + 1 && e.Wide();
        }
      }
      assert EntryStart(slots', next);
      FillPoolShaped(b, q, next, slots');
    }
  }

  /** The pool readConstantPool returns has exactly `count` slots; slot 0 is
      empty; after a LONG or DOUBLE at slot i, slot i+1 stays empty and the
      next entry goes into slot i+2. */
  lemma PoolShape(b: seq<byte>, p: nat)
    requires ParsePool(b, p).Ok?
    ensures |ParsePool(b, p).value.value| == U2(b, p)
    ensures Shaped(ParsePool(b, p).value.value)
  {
    var empty: Pool := seq(U2(b, p), _ => None);
    assert PartlyFilled(empty, 1);
    FillPoolShaped(b, p + 2, 1, empty);
  }

  /** Bytes taken by the entries of slots `i` and later. */
  function SlotBytes(pool: Pool, i: nat): nat
    decreases |pool| - i
  {
    if i >= |pool| then 0
    else (if pool[i].Some? then EntrySize(pool[i].value) else 0) + SlotBytes(pool, i + 1)
  }

  lemma {:induction false} SlotBytesFrom(pool: Pool, i: nat, k: nat)
    requires i <= k
    requires forall j | i <= j < k && j < |pool| :: pool[j].None?
    ensures SlotBytes(pool, i) == SlotBytes(pool, k)
    decreases k - i
  {
    if i < k && i < |pool| {
      SlotBytesFrom(pool, i + 1, k);
    }
  }

  lemma {:induction false} FillPoolSize(b: seq<byte>, pos: nat, i: nat, slots: Pool)
    requires PartlyFilled(slots, i)
    requires FillPool(b, pos, i, slots).Ok?
    ensures FillPool(b, pos, i, slots).value.next ==
            pos + SlotBytes(FillPool(b, pos, i, slots).value.value, i)
    ensures forall j | 0 <= j < i && j < |slots| :: FillPool(b, pos, i, slots).value.value[j] == slots[j]
    decreases |slots| - i
  {
    if i < |slots| {
      var Parsed(e, q) := ParseEntry(b, pos).value;
      var next := if e.Wide() then i + 2 else i + 1;
      var slots' := slots[i := Some(e)];
      assert EntryStart(slots', next);
      assert PartlyFilled(slots', next) by {
        forall j | 1 <= j < |slots'| && j < next
          ensures slots'[j].None? <==> j >= 2 && WideAt(slots', j - 1)
        {
          if j < i {
            if j >= 2 { assert WideAt(slots', j - 1) == WideAt(slots, j - 1); }
          } else if j == i {
            assert WideAt(slots', j - 1) == WideAt(slots, j - 1);
          }
        }
      }
      FillPoolSize(b, q, next, slots');
      var final := FillPool(b, q, next, slots').value.value;
      assert final[i] == Some(e);
      if e.Wide() && i + 1 < |slots| {
        assert final[i + 1] == slots'[i + 1] == None;
      }
      SlotBytesFrom(final, i + 1, next);
    }
  }

  /** Decoding the pool consumes the u2 count plus exactly the bytes of the
      entries it stored. */
  lemma PoolSize(b: seq<byte>, p: nat)
    requires ParsePool(b, p).Ok?
    ensures ParsePool(b, p).value.next == p + 2 + SlotBytes(ParsePool(b, p).value.value, 1)
  {
    var empty: Pool := seq(U2(b, p), _ => None);
    assert PartlyFilled(empty, 1);
    FillPoolSize(b, p + 2, 1, empty);
  }

  // ---------------------------------------------------------------------
  // Validation (CPInfo.validate and validateMethodHandle)

  /** CPInfo's `nameAndTypeIndex` field: set for the three reference kinds and
      the two dynamic kinds, 0 (Java's default) for any other entry. */
  function NameAndTypeIndexField(e: Entry): u16
  {
    if e.FieldRef? || e.MethodRef? || e.InterfaceMethodRef? || e.Dynamic? || e.InvokeDynamic?
    then e.nameAndTypeIndex else 0
  }

  /** CPInfo's `nameIndex` field: set for CLASS, MODULE, PACKAGE and
      NAME_AND_TYPE, 0 otherwise. */
  function NameIndexField(e: Entry): u16
  {
    if e.Class? || e.Module? || e.Package? || e.NameAndType? then e.nameIndex else 0
  }

  /** CPInfo's `stringBytes` field: the contents of a UTF8 entry, null
      (None) for any other entry. */
  function StringBytesField(e: Entry): Option<seq<byte>>
  {
    if e.Utf8? then Some(e.bytes) else None
  }

  /** The method name a method handle resolves to, following the Java field
      chain reference -> nameAndTypeIndex -> nameIndex -> stringBytes. The
      outer None is the null-dereference failure of a link that points at no
      entry; the inner None is a final entry that is not UTF8. */
  function HandleName(pool: Pool, ref: int): Option<Option<seq<byte>>>
    requires Occupied(pool, ref)
  {
    var nt := NameAndTypeIndexField(pool[ref].value);
    if !Occupied(pool, nt) then None
    else
      var n := NameIndexField(pool[nt].value);
      if !Occupied(pool, n) then None
      else Some(StringBytesField(pool[n].value))
  }

  const INIT := Ascii("<init>")
  const CLINIT := Ascii("<clinit>")

  /** Stage one: the reference kind decides which tag the referenced slot may
      have; kinds outside 1..9 are rejected. */
  predicate ReferenceTagAllowed(pool: Pool, kind: u8, ref: u16, major: int)
  {
    if 1 <= kind <= 4 then HasTag(pool, ref, FIELD_REF)
    else if kind == REF_INVOKE_VIRTUAL || kind == REF_NEW_INVOKE_SPECIAL then HasTag(pool, ref, METHOD_REF)
    else if kind == REF_INVOKE_STATIC || kind == REF_INVOKE_SPECIAL then
      if major < INTERFACE_HANDLE_VERSION then HasTag(pool, ref, METHOD_REF)
      else HasTag(pool, ref, METHOD_REF) || HasTag(pool, ref, INTERFACE_METHOD_REF)
    else if kind == REF_INVOKE_INTERFACE then HasTag(pool, ref, INTERFACE_METHOD_REF)
    else false
  }

  /** Stage two, for the invoke kinds 5..9: newInvokeSpecial must name
      "<init>"; the other invoke kinds must name neither "<init>" nor
      "<clinit>". The field kinds 1..4 have no name rule. */
  predicate NameRuleHolds(pool: Pool, kind: u8, ref: u16)
    requires Occupied(pool, ref)
  {
    if 5 <= kind <= 9 then
      match HandleName(pool, ref)
      case None => false
      case Some(name) =>
        if kind == REF_NEW_INVOKE_SPECIAL then name == Some(INIT)
        else name != Some(INIT) && name != Some(CLINIT)
    else true
  }

  predicate MethodHandleValid(pool: Pool, kind: u8, ref: u16, major: int)
  {
    ReferenceTagAllowed(pool, kind, ref, major) && NameRuleHolds(pool, kind, ref)
  }

  /** The rule CPInfo.validate applies to one entry. */
  predicate EntryValid(pool: Pool, e: Entry, major: int)
  {
    match e
    case Utf8(_) => true
    case Integer(_) => true
    case Float(_) => true
    case Long(_) => true
    case Double(_) => true
    case String(s) => HasTag(pool, s, UTF8)
    case Class(n) => HasTag(pool, n, UTF8)
    case Module(n) => HasTag(pool, n, UTF8)
    case Package(n) => HasTag(pool, n, UTF8)
    case FieldRef(c, nt) => HasTag(pool, c, CLASS) && HasTag(pool, nt, NAME_AND_TYPE)
    case MethodRef(c, nt) => HasTag(pool, c, CLASS) && HasTag(pool, nt, NAME_AND_TYPE)
    case InterfaceMethodRef(c, nt) => HasTag(pool, c, CLASS) && HasTag(pool, nt, NAME_AND_TYPE)
    case NameAndType(n, d) => HasTag(pool, n, UTF8) && HasTag(pool, d, UTF8)
    case MethodHandle(kind, ref) => MethodHandleValid(pool, kind, ref, major)
    case MethodType(d) => HasTag(pool, d, UTF8)
    case Dynamic(_, nt) => HasTag(pool, nt, NAME_AND_TYPE)
    case InvokeDynamic(_, nt) => HasTag(pool, nt, NAME_AND_TYPE)
  }

  /** The validation walk from slot `i`: every visited slot must hold an
      entry (the Java code dereferences it) that satisfies its rule, and the
      slot after a LONG or DOUBLE is jumped over. */
  predicate ValidFrom(pool: Pool, i: nat, major: int)
    decreases |pool| - i
  {
    if i >= |pool| then true
    else
      match pool[i]
      case None => false
      case Some(e) => EntryValid(pool, e, major) && ValidFrom(pool, if e.Wide() then i + 2 else i + 1, major)
  }

  predicate PoolValid(pool: Pool, major: int)
  {
    ValidFrom(pool, 1, major)
  }

  /** CPInfo.validate: the loop over the slots with the same skip after
      LONG and DOUBLE. */
  method ValidatePool(pool: Pool, major: int) returns (ok: bool)
    ensures ok == PoolValid(pool, major)
  {
    var i: nat := 1;
    while i < |pool|
      invariant ValidFrom(pool, i, major) == PoolValid(pool, major)
      decreases |pool| - i
    {
      if pool[i].None? {
        return false;
      }
      var cp := pool[i].value;
      if !EntryValid(pool, cp, major) {
        return false;
      }
      if cp.Wide() {
        i := i + 1;
      }
      i := i + 1;
    }
    return true;
  }

  /** On a pool as readConstantPool builds it, the walk with its skips checks
      exactly every occupied slot. */
  lemma {:induction false} ValidFromAllOccupied(pool: Pool, i: nat, major: int)
    requires Shaped(pool)
    requires EntryStart(pool, i)
    ensures ValidFrom(pool, i, major) <==>
            forall j | i <= j < |pool| && pool[j].Some? :: EntryValid(pool, pool[j].value, major)
    decreases |pool| - i
  {
    if i < |pool| {
      var e := pool[i].value;
      var next := if e.Wide() then i + 2 else i + 1;
      assert WideAt(pool, i) == e.Wide();
      if e.Wide() && i + 1 < |pool| {
        assert pool[i + 1].None?;
      }
      assert EntryStart(pool, next);
      ValidFromAllOccupied(pool, next, major);
      OccupiedSplit(pool, i, next, major);
    }
  }

  /** Splitting the occupied slots from `i` at the next visit point, when
      the slots strictly between are empty. */
  lemma OccupiedSplit(pool: Pool, i: nat, next: nat, major: int)
    requires i < |pool| && pool[i].Some? && i < next
    requires forall j | i < j < next && j < |pool| :: pool[j].None?
    ensures (forall j | i <= j < |pool| && pool[j].Some? :: EntryValid(pool, pool[j].value, major)) <==>
            EntryValid(pool, pool[i].value, major) &&
            forall j | next <= j < |pool| && pool[j].Some? :: EntryValid(pool, pool[j].value, major)
  {
  }

  lemma PoolValidAllOccupied(pool: Pool, major: int)
    requires Shaped(pool)
    ensures PoolValid(pool, major) <==>
            forall j | 1 <= j < |pool| && pool[j].Some? :: EntryValid(pool, pool[j].value, major)
  {
    ValidFromAllOccupied(pool, 1, major);
  }

  /** A reference to slot 0, past the end of the pool or to the empty slot
      after a LONG or DOUBLE names no entry of any tag, so every rule that
      checks it fails: a STRING, CLASS or ref entry holding it is invalid. */
  lemma DanglingReference(pool: Pool, s: u16, c: u16, major: int)
    requires Shaped(pool)
    requires s == 0 || s as int >= |pool| || (s >= 2 && WideAt(pool, s as int - 1))
    ensures forall t: u8 :: !HasTag(pool, s, t)
    ensures !EntryValid(pool, String(s), major) && !EntryValid(pool, Class(s), major)
    ensures !EntryValid(pool, FieldRef(s, c), major) && !EntryValid(pool, MethodRef(c, s), major)
  {
    if 2 <= s as int < |pool| && WideAt(pool, s as int - 1) {
      assert pool[s].None?;
    }
  }

  /** The major version is consulted only for invokeStatic/invokeSpecial, and
      only to allow more: an entry valid below 52 is valid at every version. */
  lemma EntryValidVersion(pool: Pool, e: Entry, m1: int, m2: int)
    requires m1 < INTERFACE_HANDLE_VERSION
    requires EntryValid(pool, e, m1)
    ensures EntryValid(pool, e, m2)
  {
  }

  lemma {:induction false} ValidFromVersion(pool: Pool, i: nat, m1: int, m2: int)
    requires m1 < INTERFACE_HANDLE_VERSION
    requires ValidFrom(pool, i, m1)
    ensures ValidFrom(pool, i, m2)
    decreases |pool| - i
  {
    if i < |pool| {
      var e := pool[i].value;
      EntryValidVersion(pool, e, m1, m2);
      ValidFromVersion(pool, if e.Wide() then i + 2 else i + 1, m1, m2);
    }
  }

  /** If the pool validates for some major version below 52, it validates
      for every major version. */
  lemma PoolValidVersion(pool: Pool, m1: int, m2: int)
    requires m1 < INTERFACE_HANDLE_VERSION
    requires PoolValid(pool, m1)
    ensures PoolValid(pool, m2)
  {
    ValidFromVersion(pool, 1, m1, m2);
  }

  /** Versions on the same side of 52 validate the same pools. */
  lemma {:induction false} ValidFromSameSide(pool: Pool, i: nat, m1: int, m2: int)
    requires (m1 < INTERFACE_HANDLE_VERSION) == (m2 < INTERFACE_HANDLE_VERSION)
    ensures ValidFrom(pool, i, m1) == ValidFrom(pool, i, m2)
    decreases |pool| - i
  {
    if i < |pool| && pool[i].Some? {
      var e := pool[i].value;
      assert EntryValid(pool, e, m1) == EntryValid(pool, e, m2);
      ValidFromSameSide(pool, if e.Wide() then i + 2 else i + 1, m1, m2);
    }
  }

  /** The relaxation is real: a handle of kind invokeStatic on an interface
      method is rejected at version 51 and accepted at version 52. */
  lemma InterfaceStaticHandleNeedsVersion52()
    ensures var pool: Pool := [None, Some(MethodHandle(REF_INVOKE_STATIC, 2)),
                               Some(InterfaceMethodRef(3, 4)), Some(Class(5)),
                               Some(NameAndType(5, 5)), Some(Utf8([0x6D]))];
            !PoolValid(pool, 51) && PoolValid(pool, 52)
  {
    var pool: Pool := [None, Some(MethodHandle(REF_INVOKE_STATIC, 2)),
                       Some(InterfaceMethodRef(3, 4)), Some(Class(5)),
                       Some(NameAndType(5, 5)), Some(Utf8([0x6D]))];
    assert [0x6D] != INIT && [0x6D] != CLINIT;
    assert HandleName(pool, 2) == Some(Some([0x6D]));
    assert ValidFrom(pool, 6, 52);
    assert ValidFrom(pool, 5, 52);
    assert ValidFrom(pool, 4, 52);
    assert ValidFrom(pool, 3, 52);
    assert ValidFrom(pool, 2, 52);
  }

  /** In a pool that validates, a method handle of an invoke kind refers to
      a method or interface-method entry whose name-and-type slot really
      holds a NAME_AND_TYPE, and the name chain ends in a UTF8 entry:
      "<init>" exactly for newInvokeSpecial, never "<clinit>". */
  lemma HandleNameInValidPool(pool: Pool, major: int, i: int)
    requires Shaped(pool) && PoolValid(pool, major)
    requires Occupied(pool, i) && pool[i].value.MethodHandle?
    requires 5 <= pool[i].value.referenceKind <= 9
    ensures var ref := pool[i].value.referenceIndex;
            && Occupied(pool, ref)
            && (pool[ref].value.MethodRef? || pool[ref].value.InterfaceMethodRef?)
            && HasTag(pool, NameAndTypeIndexField(pool[ref].value), NAME_AND_TYPE)
            && HandleName(pool, ref).Some? && HandleName(pool, ref).value.Some?
            && (pool[i].value.referenceKind == REF_NEW_INVOKE_SPECIAL <==> HandleName(pool, ref).value.value == INIT)
            && HandleName(pool, ref).value.value != CLINIT
  {
    PoolValidAllOccupied(pool, major);
    var ref := pool[i].value.referenceIndex;
    assert EntryValid(pool, pool[i].value, major);
    assert Occupied(pool, ref);
    assert EntryValid(pool, pool[ref].value, major);
    var nti := pool[ref].value.nameAndTypeIndex;
    assert EntryValid(pool, pool[nti].value, major);
    assert INIT != CLINIT by { assert |INIT| != |CLINIT|; }
  }
}
