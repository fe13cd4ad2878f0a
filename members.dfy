/**
 * Fields and methods (AbstractInfo, shared by FieldInfo and MethodInfo):
 * access flags, name index, descriptor index and a u2-counted list of
 * attributes, decoded and validated the same way for both kinds.
 */
module Members {
  import opened Bytes
  import opened ConstantPool
  import opened Attributes
  import opened AttributeDecoding
  import opened AttributeReading
  import opened AttributeValidation

  /** Which subclass of AbstractInfo a member was read as. The subclasses
      differ only in how they are printed. */
  datatype MemberKind = Field | Method

  datatype Member = Member(kind: MemberKind, accessFlags: u16, nameIndex: u16,
                           descriptorIndex: u16, attributes: seq<Attribute>)

  /** AbstractInfo(stream, pool): three u2 fields, a u2 count and that many
      attributes. */
  function ParseMember(b: seq<byte>, p: nat, pool: Pool, kind: MemberKind): (r: Result<Parsed<Member>>)
    ensures Within(b, p, r)
    ensures r.Ok? ==> (p + 8 <= |b| && r.value.value.kind == kind &&
                       r.value.value.accessFlags == U2(b, p) &&
                       r.value.value.nameIndex == U2(b, p + 2) &&
                       r.value.value.descriptorIndex == U2(b, p + 4) &&
                       ParseAttributes(b, p + 8, U2(b, p + 6), pool) ==
                         Ok(Parsed(r.value.value.attributes, r.value.next)))
    ensures p + 8 <= |b| && ParseAttributes(b, p + 8, U2(b, p + 6), pool).Err? ==>
              r == Err(ParseAttributes(b, p + 8, U2(b, p + 6), pool).failure)
  {
    if p + 8 > |b| then Err(Truncated)
    else
      MapValue(ParseAttributes(b, p + 8, U2(b, p + 6), pool),
               attrs => Member(kind, U2(b, p), U2(b, p + 2), U2(b, p + 4), attrs))
  }

  /** The member decoder of one kind as a decoder value, for the lists of
      fields and methods. */
  function MemberParser(pool: Pool, kind: MemberKind): Parser<Member>
  {
    (b: seq<byte>, p: nat) => ParseMember(b, p, pool, kind)
  }

  /** AbstractInfo(stream, pool) as the Java constructor runs it. */
  method ReadMember(b: seq<byte>, p: nat, pool: Pool, kind: MemberKind) returns (r: Result<Parsed<Member>>)
    ensures r == ParseMember(b, p, pool, kind)
  {
    if p + 8 > |b| {
      return Err(Truncated);
    }
    var accessFlags := U2(b, p);
    var nameIndex := U2(b, p + 2);
    var descriptorIndex := U2(b, p + 4);
    var count := U2(b, p + 6);
    var attrs := ReadAttributes(b, p + 8, count, pool);
    r := MapValue(attrs, attrs => Member(kind, accessFlags, nameIndex, descriptorIndex, attrs));
  }

  /** The fields or methods loop of ClassInfo(stream): a u2 count, then that
      many members of the kind. */
  method ReadMembers(b: seq<byte>, p: nat, pool: Pool, kind: MemberKind) returns (r: Result<Parsed<seq<Member>>>)
    ensures r == ParseCounted(b, p, MemberParser(pool, kind))
  {
    if p + 2 > |b| {
      return Err(Truncated);
    }
    var n := U2(b, p);
    var members := new Member[n];
    var pos: nat := p + 2;
    for i := 0 to n
      invariant ParseSeq(b, p + 2, i, MemberParser(pool, kind)) == Ok(Parsed(members[..i], pos))
    {
      var m := ReadMember(b, pos, pool, kind);
      if m.Err? {
        ParseSeqErrPersists(b, p + 2, i + 1, n, MemberParser(pool, kind));
        return Err(m.failure);
      }
      members[i] := m.value.value;
      assert members[..i + 1] == members[..i] + [members[i]];
      pos := m.value.next;
    }
    assert members[..] == members[..n];
    return Ok(Parsed(members[..], pos));
  }

  /** AbstractInfo.validate: the name and the descriptor are UTF8 entries,
      and every owned attribute validates. */
  predicate MemberValid(pool: Pool, m: Member)
  {
    HasTag(pool, m.nameIndex, UTF8) && HasTag(pool, m.descriptorIndex, UTF8) &&
    AttributesValid(pool, m.attributes)
  }

  /** The same bytes decode to a field and to a method alike, apart from the
      kind tag, and the two validate alike. */
  lemma FieldsAndMethodsAgree(b: seq<byte>, p: nat, pool: Pool)
    ensures var f := ParseMember(b, p, pool, Field); var m := ParseMember(b, p, pool, Method);
      && f.Ok? == m.Ok?
      && (f.Err? ==> f.failure == m.failure)
      && (f.Ok? ==> (m.value == Parsed(f.value.value.(kind := Method), f.value.next) &&
                     (MemberValid(pool, f.value.value) <==> MemberValid(pool, m.value.value))))
  {
  }
}
