/**
 * The ClassFile structure (ClassInfo): the magic number, the version, the
 * constant pool, the class header, the interfaces, fields, methods and
 * attributes, with the check that nothing follows the last attribute; and
 * ClassInfo.validate, which validates the pool with the decoded major
 * version before checking the header and walking the members and
 * attributes.
 */
module ClassFile {
  import opened Bytes
  import opened ConstantPool
  import opened Attributes
  import opened AttributeDecoding
  import opened AttributeReading
  import opened AttributeValidation
  import opened Members

  const MAGIC: nat := 0xCAFEBABE

  datatype ClassInfo = ClassInfo(
    minorVersion: u16, majorVersion: u16, pool: Pool, accessFlags: u16,
    thisClass: u16, superClass: u16, interfaces: seq<u16>,
    fields: seq<Member>, methods: seq<Member>, attributes: seq<Attribute>)

  /** ClassInfo(InputStream): every step must succeed, in order, and the
      input must end exactly where the last attribute ends. */
  function ParseClass(b: seq<byte>): (r: Result<ClassInfo>)
    ensures |b| < 4 ==> r == Err(Truncated)
    ensures |b| >= 4 && U4(b, 0) != MAGIC ==> r == Err(BadMagic)
    ensures r.Ok? ==> (|b| >= 10 && U4(b, 0) == MAGIC &&
                       r.value.minorVersion == U2(b, 4) && r.value.majorVersion == U2(b, 6) &&
                       ParsePool(b, 8).Ok? && r.value.pool == ParsePool(b, 8).value.value)
    ensures |b| >= 10 && U4(b, 0) == MAGIC && ParsePool(b, 8).Err? ==> r == Err(ParsePool(b, 8).failure)
  {
    if |b| < 4 then Err(Truncated)
    else if U4(b, 0) != MAGIC then Err(BadMagic)
    else if |b| < 8 then Err(Truncated)
    else
      match ParsePool(b, 8)
      case Err(e) => Err(e)
      case Ok(Parsed(pool, q)) => ParseClassBody(b, q, U2(b, 4), U2(b, 6), pool)
  }

  /** The part of ClassInfo(InputStream) after the constant pool, which
      ends at q: the flags, this and super, the interfaces, fields, methods
      and attributes, and the check that the input ends there. */
  function ParseClassBody(b: seq<byte>, q: nat, minor: u16, major: u16, pool: Pool): (r: Result<ClassInfo>)
    ensures r.Ok? ==> q + 6 <= |b| && r.value.minorVersion == minor && r.value.majorVersion == major &&
                      r.value.pool == pool
  {
    if q + 6 > |b| then Err(Truncated)
    else
      match ParseCounted(b, q + 6, ParseU2)
      case Err(e) => Err(e)
      case Ok(Parsed(interfaces, q1)) =>
        match ParseCounted(b, q1, MemberParser(pool, Field))
        case Err(e) => Err(e)
        case Ok(Parsed(fields, q2)) =>
          match ParseCounted(b, q2, MemberParser(pool, Method))
          case Err(e) => Err(e)
          case Ok(Parsed(methods, q3)) =>
            if q3 + 2 > |b| then Err(Truncated)
            else
              match ParseAttributes(b, q3 + 2, U2(b, q3), pool)
              case Err(e) => Err(e)
              case Ok(Parsed(attrs, q4)) =>
                if q4 != |b| then Err(TrailingData)
                else
                  Ok(ClassInfo(minor, major, pool, U2(b, q), U2(b, q + 2), U2(b, q + 4),
                               interfaces, fields, methods, attrs))
  }

  /** ClassInfo(InputStream) as the Java constructor runs it. */
  method ReadClass(b: seq<byte>) returns (r: Result<ClassInfo>)
    ensures r == ParseClass(b)
  {
    if |b| < 4 {
      return Err(Truncated);
    }
    if U4(b, 0) != MAGIC {
      return Err(BadMagic);
    }
    if |b| < 8 {
      return Err(Truncated);
    }
    var minorVersion := U2(b, 4);
    var majorVersion := U2(b, 6);
    var pool := ReadConstantPool(b, 8);
    if pool.Err? {
      return Err(pool.failure);
    }
    r := ReadClassBody(b, pool.value.next, minorVersion, majorVersion, pool.value.value);
  }

  method ReadClassBody(b: seq<byte>, q: nat, minor: u16, major: u16, pool: Pool) returns (r: Result<ClassInfo>)
    ensures r == ParseClassBody(b, q, minor, major, pool)
  {
    if q + 6 > |b| {
      return Err(Truncated);
    }
    var accessFlags := U2(b, q);
    var thisClass := U2(b, q + 2);
    var superClass := U2(b, q + 4);
    var interfaces := ReadCounted(b, q + 6, ParseU2);
    if interfaces.Err? {
      return Err(interfaces.failure);
    }
    var fields := ReadMembers(b, interfaces.value.next, pool, Field);
    if fields.Err? {
      return Err(fields.failure);
    }
    var methods := ReadMembers(b, fields.value.next, pool, Method);
    if methods.Err? {
      return Err(methods.failure);
    }
    var q3 := methods.value.next;
    if q3 + 2 > |b| {
      return Err(Truncated);
    }
    var attrs := ReadAttributes(b, q3 + 2, U2(b, q3), pool);
    if attrs.Err? {
      return Err(attrs.failure);
    }
    if attrs.value.next != |b| {
      return Err(TrailingData);
    }
    return Ok(ClassInfo(minor, major, pool, accessFlags, thisClass, superClass,
                        interfaces.value.value, fields.value.value, methods.value.value, attrs.value.value));
  }

  /** ClassInfo.validate: the pool with the decoded major version, the class
      header, the interfaces, then fields, methods and attributes. */
  predicate ClassValid(c: ClassInfo)
  {
    PoolValid(c.pool, c.majorVersion) &&
    HasTag(c.pool, c.thisClass, CLASS) &&
    OptionalTag(c.pool, c.superClass, CLASS) &&
    AllTagged(c.pool, c.interfaces, CLASS) &&
    (forall k | 0 <= k < |c.fields| :: MemberValid(c.pool, c.fields[k])) &&
    (forall k | 0 <= k < |c.methods| :: MemberValid(c.pool, c.methods[k])) &&
    AttributesValid(c.pool, c.attributes)
  }

  /** ClassInfo.validate as the Java method runs it, stopping at the first
      failing check. */
  method ValidateClass(c: ClassInfo) returns (ok: bool)
    ensures ok == ClassValid(c)
  {
    ok := ValidatePool(c.pool, c.majorVersion);
    if !ok {
      return;
    }
    if !HasTag(c.pool, c.thisClass, CLASS) || !OptionalTag(c.pool, c.superClass, CLASS) {
      return false;
    }
    for i := 0 to |c.interfaces|
      invariant forall k | 0 <= k < i :: HasTag(c.pool, c.interfaces[k], CLASS)
    {
      if !HasTag(c.pool, c.interfaces[i], CLASS) {
        return false;
      }
    }
    for i := 0 to |c.fields|
      invariant forall k | 0 <= k < i :: MemberValid(c.pool, c.fields[k])
    {
      if !MemberValid(c.pool, c.fields[i]) {
        return false;
      }
    }
    for i := 0 to |c.methods|
      invariant forall k | 0 <= k < i :: MemberValid(c.pool, c.methods[k])
    {
      if !MemberValid(c.pool, c.methods[i]) {
        return false;
      }
    }
    for i := 0 to |c.attributes|
      invariant forall k | 0 <= k < i :: AttributeValid(c.pool, c.attributes[k])
    {
      if !AttributeValid(c.pool, c.attributes[i]) {
        return false;
      }
    }
    return true;
  }

  // ---------------------------------------------------------------------
  // Properties

  /** The layout of a decoded class file: the pool starts at byte 8, holds
      as many slots as the u2 count there says and is shaped as
      readConstantPool builds it, and the rest of the file is the class body
      read from where the pool ends. */
  lemma ClassLayout(b: seq<byte>)
    requires ParseClass(b).Ok?
    ensures var c := ParseClass(b).value; var q := ParsePool(b, 8).value.next;
      && |c.pool| == U2(b, 8) && Shaped(c.pool)
      && ParseClassBody(b, q, U2(b, 4), U2(b, 6), c.pool) == Ok(c)
  {
    PoolShape(b, 8);
  }

  /** The layout of a decoded class body: the flags, this and super, then
      the interfaces, fields, methods and attributes, each u2-counted and
      each starting where the previous one ended; the attributes end exactly
      at the end of the input. */
  lemma BodyLayout(b: seq<byte>, q: nat, minor: u16, major: u16, pool: Pool)
    requires ParseClassBody(b, q, minor, major, pool).Ok?
    ensures var c := ParseClassBody(b, q, minor, major, pool).value;
      && c.accessFlags == U2(b, q) && c.thisClass == U2(b, q + 2) && c.superClass == U2(b, q + 4)
      && ParseCounted(b, q + 6, ParseU2).Ok?
      && c.interfaces == ParseCounted(b, q + 6, ParseU2).value.value
      && var q1 := ParseCounted(b, q + 6, ParseU2).value.next;
         && ParseCounted(b, q1, MemberParser(pool, Field)).Ok?
         && c.fields == ParseCounted(b, q1, MemberParser(pool, Field)).value.value
         && var q2 := ParseCounted(b, q1, MemberParser(pool, Field)).value.next;
            && ParseCounted(b, q2, MemberParser(pool, Method)).Ok?
            && c.methods == ParseCounted(b, q2, MemberParser(pool, Method)).value.value
            && var q3 := ParseCounted(b, q2, MemberParser(pool, Method)).value.next;
               && q3 + 2 <= |b|
               && ParseAttributes(b, q3 + 2, U2(b, q3), pool) == Ok(Parsed(c.attributes, |b|))
  {
  }

  /** The interfaces of a class body at `q` decode and end at `q1`. */
  predicate InterfacesAt(b: seq<byte>, q: nat, q1: nat)
  {
    q + 6 <= |b| && ParseCounted(b, q + 6, ParseU2).Ok? && ParseCounted(b, q + 6, ParseU2).value.next == q1
  }

  /** A u2-counted list of members of one kind at `p` decodes and ends at
      `next`. */
  predicate MembersAt(b: seq<byte>, p: nat, pool: Pool, kind: MemberKind, next: nat)
  {
    ParseCounted(b, p, MemberParser(pool, kind)).Ok? && ParseCounted(b, p, MemberParser(pool, kind)).value.next == next
  }

  /** The u2-counted class attributes at `p` decode and end at `next`. */
  predicate AttributesAt(b: seq<byte>, p: nat, pool: Pool, next: nat)
  {
    p + 2 <= |b| && ParseAttributes(b, p + 2, U2(b, p), pool).Ok? &&
    ParseAttributes(b, p + 2, U2(b, p), pool).value.next == next
  }

  /** Where the parts of a decoded class body end; the attributes end at the
      end of the input. */
  lemma BodyParts(b: seq<byte>, q: nat, minor: u16, major: u16, pool: Pool) returns (q1: nat, q2: nat, q3: nat)
    requires ParseClassBody(b, q, minor, major, pool).Ok?
    ensures InterfacesAt(b, q, q1) && MembersAt(b, q1, pool, Field, q2) && MembersAt(b, q2, pool, Method, q3)
    ensures AttributesAt(b, q3, pool, |b|)
  {
    q1 := BodyInterfaces(b, q, minor, major, pool);
    q2, q3 := BodyMembers(b, q, minor, major, pool, q1);
    BodyAttributes(b, q, minor, major, pool, q1, q2, q3);
  }

  lemma BodyInterfaces(b: seq<byte>, q: nat, minor: u16, major: u16, pool: Pool) returns (q1: nat)
    requires ParseClassBody(b, q, minor, major, pool).Ok?
    ensures InterfacesAt(b, q, q1)
  {
    q1 := ParseCounted(b, q + 6, ParseU2).value.next;
  }

  lemma BodyMembers(b: seq<byte>, q: nat, minor: u16, major: u16, pool: Pool, q1: nat) returns (q2: nat, q3: nat)
    requires ParseClassBody(b, q, minor, major, pool).Ok? && InterfacesAt(b, q, q1)
    ensures MembersAt(b, q1, pool, Field, q2) && MembersAt(b, q2, pool, Method, q3)
  {
    q2 := ParseCounted(b, q1, MemberParser(pool, Field)).value.next;
    q3 := ParseCounted(b, q2, MemberParser(pool, Method)).value.next;
  }

  lemma BodyAttributes(b: seq<byte>, q: nat, minor: u16, major: u16, pool: Pool, q1: nat, q2: nat, q3: nat)
    requires ParseClassBody(b, q, minor, major, pool).Ok? && InterfacesAt(b, q, q1)
    requires MembersAt(b, q1, pool, Field, q2) && MembersAt(b, q2, pool, Method, q3)
    ensures AttributesAt(b, q3, pool, |b|)
  {
  }

  /** The other side of BodyParts: a class body whose parts all decode but
      whose attributes end before the end of the input is trailing data. */
  lemma BodyEndsEarly(b: seq<byte>, q: nat, minor: u16, major: u16, pool: Pool, q1: nat, q2: nat, q3: nat, end: nat)
    requires InterfacesAt(b, q, q1) && MembersAt(b, q1, pool, Field, q2) && MembersAt(b, q2, pool, Method, q3)
    requires AttributesAt(b, q3, pool, end) && end != |b|
    ensures ParseClassBody(b, q, minor, major, pool) == Err(TrailingData)
  {
  }

  /** Every field and method of a decoded class file is of its kind. */
  lemma MemberKinds(b: seq<byte>)
    requires ParseClass(b).Ok?
    ensures var c := ParseClass(b).value;
      && (forall k | 0 <= k < |c.fields| :: c.fields[k].kind == Field)
      && (forall k | 0 <= k < |c.methods| :: c.methods[k].kind == Method)
  {
    ClassLayout(b);
    BodyMemberKinds(b, ParsePool(b, 8).value.next, U2(b, 4), U2(b, 6), ParseClass(b).value.pool);
  }

  lemma BodyMemberKinds(b: seq<byte>, q: nat, minor: u16, major: u16, pool: Pool)
    requires ParseClassBody(b, q, minor, major, pool).Ok?
    ensures var c := ParseClassBody(b, q, minor, major, pool).value;
      && (forall k | 0 <= k < |c.fields| :: c.fields[k].kind == Field)
      && (forall k | 0 <= k < |c.methods| :: c.methods[k].kind == Method)
  {
    var q1 := ParseCounted(b, q + 6, ParseU2).value.next;
    CountedKinds(b, q1, pool, Field);
    var q2 := ParseCounted(b, q1, MemberParser(pool, Field)).value.next;
    CountedKinds(b, q2, pool, Method);
  }

  lemma CountedKinds(b: seq<byte>, p: nat, pool: Pool, kind: MemberKind)
    ensures var r := ParseCounted(b, p, MemberParser(pool, kind));
      r.Ok? ==> forall k | 0 <= k < |r.value.value| :: r.value.value[k].kind == kind
  {
    if p + 2 <= |b| && ParseSeq(b, p + 2, U2(b, p), MemberParser(pool, kind)).Ok? {
      SeqKinds(b, p + 2, U2(b, p), pool, kind);
    }
  }

  lemma {:induction false} SeqKinds(b: seq<byte>, p: nat, n: nat, pool: Pool, kind: MemberKind)
    requires ParseSeq(b, p, n, MemberParser(pool, kind)).Ok?
    ensures var ms := ParseSeq(b, p, n, MemberParser(pool, kind)).value.value;
      forall k | 0 <= k < |ms| :: ms[k].kind == kind
  {
    if n > 0 {
      SeqKinds(b, p, n - 1, pool, kind);
    }
  }

  /** The major version takes part in class validation only through the
      pool: a class that validates at a version below 52 validates at every
      version. */
  lemma ClassValidVersion(c: ClassInfo, major: u16)
    requires c.majorVersion < INTERFACE_HANDLE_VERSION
    requires ClassValid(c)
    ensures ClassValid(c.(majorVersion := major))
  {
    PoolValidVersion(c.pool, c.majorVersion, major);
  }

  /** A class file validates exactly when its pool validates and every
      other check holds; in particular, with a pool as readConstantPool
      builds it, every occupied slot passes its entry rule. */
  lemma ValidClassPool(c: ClassInfo)
    requires Shaped(c.pool)
    ensures ClassValid(c) ==>
      forall j | 1 <= j < |c.pool| && c.pool[j].Some? :: EntryValid(c.pool, c.pool[j].value, c.majorVersion)
  {
    PoolValidAllOccupied(c.pool, c.majorVersion);
  }
}
