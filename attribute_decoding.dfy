/**
 * The attribute decoder as pure functions over the input bytes: what the
 * constructors of AttributeInfo, its nested record classes and Code read,
 * in the order they read it. Each `ParseX(b, p)` returns the decoded record
 * and the position after it, or the failure the Java code would throw.
 *
 * Two recursion cycles run through this module: an attribute may be a Code
 * body that owns attributes, and an element value may be an annotation or an
 * array of element values. Both terminate because each step consumes at
 * least one byte; the measure is the number of bytes left, then a rank that
 * orders the functions of a cycle, then a list count.
 */
module AttributeDecoding {
  import opened Bytes
  import opened ConstantPool
  import opened Attributes

  // ---------------------------------------------------------------------
  // Stack-map frames

  /** VerificationTypeInfo(stream). */
  function ParseVerificationType(b: seq<byte>, p: nat): (r: Result<Parsed<VerificationType>>)
    ensures Within(b, p, r)
    ensures r.Ok? <==> p < |b| && b[p] <= 8 && (b[p] >= 7 ==> p + 3 <= |b|)
    ensures p < |b| && b[p] > 8 ==> r == Err(BadTag)
    ensures r.Ok? ==> (ItemTag(r.value.value) == b[p] &&
                       r.value.next == p + (if b[p] >= 7 then 3 else 1))
    ensures r.Ok? && r.value.value.ObjectItem? ==> r.value.value.cpoolIndex == U2(b, p + 1)
  {
    if p >= |b| then Err(Truncated)
    else
      var t := b[p];
      if t == 0 then Ok(Parsed(TopItem, p + 1))
      else if t == 1 then Ok(Parsed(IntegerItem, p + 1))
      else if t == 2 then Ok(Parsed(FloatItem, p + 1))
      else if t == 3 then Ok(Parsed(DoubleItem, p + 1))
      else if t == 4 then Ok(Parsed(LongItem, p + 1))
      else if t == 5 then Ok(Parsed(NullItem, p + 1))
      else if t == 6 then Ok(Parsed(UninitializedThisItem, p + 1))
      else if t == 7 then MapValue(ParseU2(b, p + 1), i => ObjectItem(i))
      else if t == 8 then MapValue(ParseU2(b, p + 1), o => UninitializedItem(o))
      else Err(BadTag)
  }

  /** StackMapFrame(stream): the frame type byte selects the layout. */
  function ParseFrame(b: seq<byte>, p: nat): (r: Result<Parsed<StackMapFrame>>)
    ensures Within(b, p, r)
    ensures r.Ok? ==> p < |b| && FrameType(r.value.value) == b[p]
    ensures p < |b| && 128 <= b[p] < 247 ==> r == Err(BadTag)
  {
    if p >= |b| then Err(Truncated)
    else
      var t := b[p];
      if t <= SAME_MAX then Ok(Parsed(SameFrame(t), p + 1))
      else if t <= SAME_LOCALS_1_STACK_ITEM_MAX then
        var delta: u16 := t - 64;
        MapValue(ParseVerificationType(b, p + 1), v => SameLocals1StackItem(delta, v))
      else if t < SAME_LOCALS_1_STACK_ITEM_EXTENDED then Err(BadTag)
      else if p + 3 > |b| then Err(Truncated)
      else
        var delta := U2(b, p + 1);
        if t == SAME_LOCALS_1_STACK_ITEM_EXTENDED then
          MapValue(ParseVerificationType(b, p + 3), v => SameLocals1StackItemExtended(delta, v))
        else if t <= CHOP_MAX then Ok(Parsed(ChopFrame(t, delta), p + 3))
        else if t == SAME_FRAME_EXTENDED then Ok(Parsed(SameFrameExtended(delta), p + 3))
        else if t <= APPEND_MAX then
          assert Advancing(ParseVerificationType);
          MapValue(ParseSeq(b, p + 3, t - 251, ParseVerificationType), ls => AppendFrame(delta, ls))
        else
          assert Advancing(ParseVerificationType);
          match ParseCounted(b, p + 3, ParseVerificationType)
          case Err(e) => Err(e)
          case Ok(Parsed(locals, q)) =>
            MapValue(ParseCounted(b, q, ParseVerificationType), st => FullFrame(delta, locals, st))
  }

  // ---------------------------------------------------------------------
  // Fixed-width records

  /** InnerClass(stream): four u2 fields. */
  function ParseInnerClass(b: seq<byte>, p: nat): (r: Result<Parsed<InnerClass>>)
    ensures r.Ok? <==> p + 8 <= |b|
    ensures r.Ok? ==> r.value.next == p + 8
    ensures r.Ok? ==> r.value.value == InnerClass(U2(b, p), U2(b, p + 2), U2(b, p + 4), U2(b, p + 6))
  {
    if p + 8 <= |b| then Ok(Parsed(InnerClass(U2(b, p), U2(b, p + 2), U2(b, p + 4), U2(b, p + 6)), p + 8))
    else Err(Truncated)
  }

  /** LineNumberTable(stream): two u2 fields. */
  function ParseLineNumber(b: seq<byte>, p: nat): (r: Result<Parsed<LineNumber>>)
    ensures r.Ok? <==> p + 4 <= |b|
    ensures r.Ok? ==> r.value == Parsed(LineNumber(U2(b, p), U2(b, p + 2)), p + 4)
  {
    if p + 4 <= |b| then Ok(Parsed(LineNumber(U2(b, p), U2(b, p + 2)), p + 4)) else Err(Truncated)
  }

  /** LocalVariableTable(stream): five u2 fields. */
  function ParseLocalVariable(b: seq<byte>, p: nat): (r: Result<Parsed<LocalVariable>>)
    ensures r.Ok? <==> p + 10 <= |b|
    ensures r.Ok? ==> r.value.next == p + 10
    ensures r.Ok? ==> r.value.value == LocalVariable(U2(b, p), U2(b, p + 2), U2(b, p + 4), U2(b, p + 6), U2(b, p + 8))
  {
    if p + 10 <= |b| then
      Ok(Parsed(LocalVariable(U2(b, p), U2(b, p + 2), U2(b, p + 4), U2(b, p + 6), U2(b, p + 8)), p + 10))
    else Err(Truncated)
  }

  /** LocalVariableTypeTable(stream): five u2 fields. */
  function ParseLocalVariableType(b: seq<byte>, p: nat): (r: Result<Parsed<LocalVariableType>>)
    ensures r.Ok? <==> p + 10 <= |b|
    ensures r.Ok? ==> r.value.next == p + 10
    ensures r.Ok? ==> r.value.value == LocalVariableType(U2(b, p), U2(b, p + 2), U2(b, p + 4), U2(b, p + 6), U2(b, p + 8))
  {
    if p + 10 <= |b| then
      Ok(Parsed(LocalVariableType(U2(b, p), U2(b, p + 2), U2(b, p + 4), U2(b, p + 6), U2(b, p + 8)), p + 10))
    else Err(Truncated)
  }

  /** MethodParameters(stream): two u2 fields. */
  function ParseMethodParameter(b: seq<byte>, p: nat): (r: Result<Parsed<MethodParameter>>)
    ensures r.Ok? <==> p + 4 <= |b|
    ensures r.Ok? ==> r.value == Parsed(MethodParameter(U2(b, p), U2(b, p + 2)), p + 4)
  {
    if p + 4 <= |b| then Ok(Parsed(MethodParameter(U2(b, p), U2(b, p + 2)), p + 4)) else Err(Truncated)
  }

  /** Module.Requires(stream): three u2 fields. */
  function ParseRequires(b: seq<byte>, p: nat): (r: Result<Parsed<Requires>>)
    ensures r.Ok? <==> p + 6 <= |b|
    ensures r.Ok? ==> r.value == Parsed(Requires(U2(b, p), U2(b, p + 2), U2(b, p + 4)), p + 6)
  {
    if p + 6 <= |b| then Ok(Parsed(Requires(U2(b, p), U2(b, p + 2), U2(b, p + 4)), p + 6)) else Err(Truncated)
  }

  /** Code.ExceptionTable(stream): four u2 fields. */
  function ParseHandler(b: seq<byte>, p: nat): (r: Result<Parsed<ExceptionHandler>>)
    ensures r.Ok? <==> p + 8 <= |b|
    ensures r.Ok? ==> r.value.next == p + 8
    ensures r.Ok? ==> r.value.value == ExceptionHandler(U2(b, p), U2(b, p + 2), U2(b, p + 4), U2(b, p + 6))
  {
    if p + 8 <= |b| then
      Ok(Parsed(ExceptionHandler(U2(b, p), U2(b, p + 2), U2(b, p + 4), U2(b, p + 6)), p + 8))
    else Err(Truncated)
  }

  // ---------------------------------------------------------------------
  // Records holding a counted index list

  /** BootstrapMethods(stream): the method-handle index, then a u2-counted
      list of argument indices. */
  function ParseBootstrapMethod(b: seq<byte>, p: nat): (r: Result<Parsed<BootstrapMethod>>)
    ensures Within(b, p, r)
    ensures r.Ok? <==> p + 2 <= |b| && ParseCounted(b, p + 2, ParseU2).Ok?
    ensures r.Ok? ==> (p + 4 <= |b| && r.value.value.bootstrapMethodRef == U2(b, p) &&
                       ParseCounted(b, p + 2, ParseU2) == Ok(Parsed(r.value.value.bootstrapArguments, r.value.next)))
  {
    if p + 2 > |b| then Err(Truncated)
    else
      assert Advancing(ParseU2);
      MapValue(ParseCounted(b, p + 2, ParseU2), args => BootstrapMethod(U2(b, p), args))
  }

  /** Module.Exports(stream). */
  function ParseExports(b: seq<byte>, p: nat): (r: Result<Parsed<Exports>>)
    ensures Within(b, p, r)
    ensures r.Ok? <==> p + 4 <= |b| && ParseCounted(b, p + 4, ParseU2).Ok?
    ensures r.Ok? ==> (p + 6 <= |b| && r.value.value.exportsIndex == U2(b, p) &&
                       r.value.value.exportsFlags == U2(b, p + 2) &&
                       ParseCounted(b, p + 4, ParseU2) == Ok(Parsed(r.value.value.exportsToIndex, r.value.next)))
  {
    if p + 4 > |b| then Err(Truncated)
    else
      assert Advancing(ParseU2);
      MapValue(ParseCounted(b, p + 4, ParseU2), to => Exports(U2(b, p), U2(b, p + 2), to))
  }

  /** Module.Opens(stream). */
  function ParseOpens(b: seq<byte>, p: nat): (r: Result<Parsed<Opens>>)
    ensures Within(b, p, r)
    ensures r.Ok? <==> p + 4 <= |b| && ParseCounted(b, p + 4, ParseU2).Ok?
    ensures r.Ok? ==> (p + 6 <= |b| && r.value.value.opensIndex == U2(b, p) &&
                       r.value.value.opensFlags == U2(b, p + 2) &&
                       ParseCounted(b, p + 4, ParseU2) == Ok(Parsed(r.value.value.opensToIndex, r.value.next)))
  {
    if p + 4 > |b| then Err(Truncated)
    else
      assert Advancing(ParseU2);
      MapValue(ParseCounted(b, p + 4, ParseU2), to => Opens(U2(b, p), U2(b, p + 2), to))
  }

  /** Module.Provides(stream). */
  function ParseProvides(b: seq<byte>, p: nat): (r: Result<Parsed<Provides>>)
    ensures Within(b, p, r)
    ensures r.Ok? <==> p + 2 <= |b| && ParseCounted(b, p + 2, ParseU2).Ok?
    ensures r.Ok? ==> (p + 4 <= |b| && r.value.value.providesIndex == U2(b, p) &&
                       ParseCounted(b, p + 2, ParseU2) == Ok(Parsed(r.value.value.providesWithIndex, r.value.next)))
  {
    if p + 2 > |b| then Err(Truncated)
    else
      assert Advancing(ParseU2);
      MapValue(ParseCounted(b, p + 2, ParseU2), with => Provides(U2(b, p), with))
  }

  /** The five tables of a Module body starting at `q`, each u2-counted
      and each starting where the previous one ends, the last one ending at
      `next`. */
  predicate ModuleTables(b: seq<byte>, q: nat, m: ModuleDescriptor, next: nat)
  {
    && ParseCounted(b, q, ParseRequires).Ok?
    && m.requiresTable == ParseCounted(b, q, ParseRequires).value.value
    && var q1 := ParseCounted(b, q, ParseRequires).value.next;
       && ParseCounted(b, q1, ParseExports).Ok?
       && m.exportsTable == ParseCounted(b, q1, ParseExports).value.value
       && var q2 := ParseCounted(b, q1, ParseExports).value.next;
          && ParseCounted(b, q2, ParseOpens).Ok?
          && m.opensTable == ParseCounted(b, q2, ParseOpens).value.value
          && var q3 := ParseCounted(b, q2, ParseOpens).value.next;
             && ParseCounted(b, q3, ParseU2).Ok?
             && m.usesIndex == ParseCounted(b, q3, ParseU2).value.value
             && var q4 := ParseCounted(b, q3, ParseU2).value.next;
                ParseCounted(b, q4, ParseProvides) == Ok(Parsed(m.providesTable, next))
  }

  /** Module(stream): three u2 fields, then the requires, exports and opens
      tables, the uses indices and the provides table, each u2-counted. */
  function ParseModule(b: seq<byte>, p: nat): (r: Result<Parsed<ModuleDescriptor>>)
    ensures Within(b, p, r)
    ensures r.Ok? ==> (p + 6 <= |b| && r.value.value.moduleNameIndex == U2(b, p) &&
                       r.value.value.moduleFlags == U2(b, p + 2) &&
                       r.value.value.moduleVersionIndex == U2(b, p + 4))
    ensures r.Ok? ==> ModuleTables(b, p + 6, r.value.value, r.value.next)
  {
    if p + 6 > |b| then Err(Truncated)
    else
      assert Advancing(ParseRequires) && Advancing(ParseExports) && Advancing(ParseOpens);
      assert Advancing(ParseU2) && Advancing(ParseProvides);
      match ParseCounted(b, p + 6, ParseRequires)
      case Err(e) => Err(e)
      case Ok(Parsed(requirements, q1)) =>
        match ParseCounted(b, q1, ParseExports)
        case Err(e) => Err(e)
        case Ok(Parsed(exports, q2)) =>
          match ParseCounted(b, q2, ParseOpens)
          case Err(e) => Err(e)
          case Ok(Parsed(opens, q3)) =>
            match ParseCounted(b, q3, ParseU2)
            case Err(e) => Err(e)
            case Ok(Parsed(uses, q4)) =>
              MapValue(ParseCounted(b, q4, ParseProvides),
                       provided => ModuleDescriptor(U2(b, p), U2(b, p + 2), U2(b, p + 4),
                                                    requirements, exports, opens, uses, provided))
  }

  // ---------------------------------------------------------------------
  // Element values and annotations (mutually recursive)

  /** ElementValue(stream): the tag byte selects the layout. */
  function ParseElementValue(b: seq<byte>, p: nat): (r: Result<Parsed<ElementValue>>)
    ensures Within(b, p, r)
    ensures r.Ok? ==> p < |b| && ElementTag(r.value.value) == b[p] && IsElementTag(b[p])
    ensures p < |b| && !IsElementTag(b[p]) ==> r == Err(BadTag)
    decreases |b| - p, 0, 0
  {
    if p >= |b| then Err(Truncated)
    else
      var t := b[p];
      if IsConstTag(t) then MapValue(ParseU2(b, p + 1), i => ConstValue(t, i))
      else if t == TAG_ENUM then
        if p + 5 <= |b| then Ok(Parsed(EnumValue(U2(b, p + 1), U2(b, p + 3)), p + 5)) else Err(Truncated)
      else if t == TAG_CLASS then MapValue(ParseU2(b, p + 1), i => ClassValue(i))
      else if t == TAG_ANNOTATION then MapValue(ParseAnnotation(b, p + 1), a => AnnotationValue(a))
      else if t == TAG_ARRAY then
        if p + 3 > |b| then Err(Truncated)
        else MapValue(ParseElementValues(b, p + 3, U2(b, p + 1)), vs => ArrayValue(vs))
      else Err(BadTag)
  }

  /** `n` element values in a row (the `values` loop of ElementValue). */
  function ParseElementValues(b: seq<byte>, p: nat, n: nat): (r: Result<Parsed<seq<ElementValue>>>)
    ensures Within(b, p, r)
    ensures r.Ok? ==> |r.value.value| == n
    decreases |b| - p, 1, n
  {
    if n == 0 then Ok(Parsed([], p))
    else
      match ParseElementValues(b, p, n - 1)
      case Err(e) => Err(e)
      case Ok(Parsed(vs, q)) => MapValue(ParseElementValue(b, q), v => vs + [v])
  }

  /** ElementValuePair(stream): a name index, then an element value. */
  function ParsePair(b: seq<byte>, p: nat): (r: Result<Parsed<ElementValuePair>>)
    ensures Within(b, p, r)
    ensures r.Ok? <==> p + 2 <= |b| && ParseElementValue(b, p + 2).Ok?
    ensures r.Ok? ==> (p + 2 <= |b| && r.value.value.elementNameIndex == U2(b, p) &&
                       ParseElementValue(b, p + 2) == Ok(Parsed(r.value.value.value, r.value.next)))
    decreases |b| - p, 0, 0
  {
    if p + 2 > |b| then Err(Truncated)
    else MapValue(ParseElementValue(b, p + 2), v => ElementValuePair(U2(b, p), v))
  }

  /** `n` element-value pairs in a row. */
  function ParsePairs(b: seq<byte>, p: nat, n: nat): (r: Result<Parsed<seq<ElementValuePair>>>)
    ensures Within(b, p, r)
    ensures r.Ok? ==> |r.value.value| == n
    decreases |b| - p, 1, n
  {
    if n == 0 then Ok(Parsed([], p))
    else
      match ParsePairs(b, p, n - 1)
      case Err(e) => Err(e)
      case Ok(Parsed(ps, q)) => MapValue(ParsePair(b, q), x => ps + [x])
  }

  /** Annotation(stream): a type index, then a u2-counted list of pairs. */
  function ParseAnnotation(b: seq<byte>, p: nat): (r: Result<Parsed<Annotation>>)
    ensures Within(b, p, r)
    ensures r.Ok? <==> p + 4 <= |b| && ParsePairs(b, p + 4, U2(b, p + 2)).Ok?
    ensures r.Ok? ==> (p + 4 <= |b| && r.value.value.typeIndex == U2(b, p) &&
                       |r.value.value.pairs| == U2(b, p + 2) &&
                       ParsePairs(b, p + 4, U2(b, p + 2)) == Ok(Parsed(r.value.value.pairs, r.value.next)))
    decreases |b| - p, 2, 0
  {
    if p + 4 > |b| then Err(Truncated)
    else MapValue(ParsePairs(b, p + 4, U2(b, p + 2)), ps => Annotation(U2(b, p), ps))
  }

  /** The list-element decoders of ParseLaterInfo stay inside their input. */
  lemma LaterDecodersAdvance()
    ensures Advancing(ParseU2) && Advancing(ParseAnnotation) && Advancing(ParseBootstrapMethod)
    ensures Advancing(ParseMethodParameter)
  {
  }

  // ---------------------------------------------------------------------
  // Attributes and Code bodies (mutually recursive)

  /** The name an attribute header refers to: a UTF8 entry of the pool. A
      slot that is 0, past the end, empty or of another kind has no string,
      and the Java switch on it throws. */
  function AttributeName(pool: Pool, i: int): (r: Option<seq<byte>>)
    ensures r.Some? <==> HasTag(pool, i, UTF8)
  {
    if HasTag(pool, i, UTF8) then Some(pool[i].value.bytes) else None
  }

  /** AttributeInfo(stream, pool): the u2 name index, the 4-byte signed
      length, then the body the name selects. */
  function ParseAttribute(b: seq<byte>, p: nat, pool: Pool): (r: Result<Parsed<Attribute>>)
    ensures Within(b, p, r)
    ensures r.Ok? ==> (p + 6 <= |b| && HasTag(pool, U2(b, p), UTF8) &&
                       r.value.value.nameIndex == U2(b, p) && r.value.value.length == S4(b, p + 2))
    ensures p + 2 <= |b| && !HasTag(pool, U2(b, p), UTF8) ==> r == Err(BadReference)
    ensures r.Ok? ==> ParseInfo(b, p + 6, pool, pool[U2(b, p)].value.bytes, S4(b, p + 2)) ==
                      Ok(Parsed(r.value.value.info, r.value.next))
    decreases |b| - p, 0, 0
  {
    if p + 2 > |b| then Err(Truncated)
    else
      var nameIndex := U2(b, p);
      match AttributeName(pool, nameIndex)
      case None => Err(BadReference)
      case Some(name) =>
        if p + 6 > |b| then Err(Truncated)
        else
          var length := S4(b, p + 2);
          MapValue(ParseInfo(b, p + 6, pool, name, length), info => Attribute(nameIndex, length, info))
  }

  /** `n` attributes in a row (the attribute loops of Code, AbstractInfo and
      ClassInfo). */
  function ParseAttributes(b: seq<byte>, p: nat, n: nat, pool: Pool): (r: Result<Parsed<seq<Attribute>>>)
    ensures Within(b, p, r)
    ensures r.Ok? ==> |r.value.value| == n
    decreases |b| - p, 1, n
  {
    if n == 0 then Ok(Parsed([], p))
    else
      match ParseAttributes(b, p, n - 1, pool)
      case Err(e) => Err(e)
      case Ok(Parsed(attrs, q)) => MapValue(ParseAttribute(b, q, pool), a => attrs + [a])
  }

  /** Code(stream, pool): max_stack, max_locals, the signed code length,
      which must lie in 1..65535, the code bytes, the exception table and the
      nested attributes. */
  function ParseCode(b: seq<byte>, p: nat, pool: Pool): (r: Result<Parsed<Code>>)
    ensures Within(b, p, r)
    ensures r.Ok? ==> (p + 8 <= |b| && 0 < S4(b, p + 4) < 0x1_0000 && p + 8 + S4(b, p + 4) <= |b| &&
                       r.value.value.code == b[p + 8..p + 8 + S4(b, p + 4)])
    ensures p + 8 <= |b| && !(0 < S4(b, p + 4) < 0x1_0000) ==> r == Err(BadLength)
    decreases |b| - p, 3, 0
  {
    if p + 8 > |b| then Err(Truncated)
    else
      var length := S4(b, p + 4);
      if length <= 0 || length >= 0x1_0000 then Err(BadLength)
      else if p + 8 + length > |b| then Err(Truncated)
      else
        var code := b[p + 8..p + 8 + length];
        assert Advancing(ParseHandler);
        match ParseCounted(b, p + 8 + length, ParseHandler)
        case Err(e) => Err(e)
        case Ok(Parsed(handlers, q)) =>
          if q + 2 > |b| then Err(Truncated)
          else
            MapValue(ParseAttributes(b, q + 2, U2(b, q), pool),
                     attrs => Code(U2(b, p), U2(b, p + 2), code, handlers, attrs))
  }

  /** The body of an attribute named `name`, starting after its header. A
      known name reads its own layout and ignores `length`; any other name is
      `length` opaque bytes, and a negative length cannot be allocated. */
  function ParseInfo(b: seq<byte>, p: nat, pool: Pool, name: seq<byte>, length: int): (r: Result<Parsed<Info>>)
    ensures Within(b, p, r)
    ensures !IsKnownName(name) ==>
              r == (if length < 0 then Err(BadLength)
                    else if p + length <= |b| then Ok(Parsed(Unknown(b[p..p + length]), p + length))
                    else Err(Truncated))
    decreases |b| - p, 5, 0
  {
    assert Advancing(ParseU2) && Advancing(ParseFrame) && Advancing(ParseInnerClass);
    assert Advancing(ParseLineNumber) && Advancing(ParseLocalVariable) && Advancing(ParseLocalVariableType);
    if name == CONSTANT_VALUE then MapValue(ParseU2(b, p), i => ConstantValue(i))
    else if name == CODE then MapValue(ParseCode(b, p, pool), c => CodeAttr(c))
    else if name == STACK_MAP_TABLE then MapValue(ParseCounted(b, p, ParseFrame), fs => StackMapTable(fs))
    else if name == EXCEPTIONS then MapValue(ParseCounted(b, p, ParseU2), xs => Exceptions(xs))
    else if name == INNER_CLASSES then MapValue(ParseCounted(b, p, ParseInnerClass), cs => InnerClasses(cs))
    else if name == ENCLOSING_METHOD then
      if p + 4 <= |b| then Ok(Parsed(EnclosingMethod(U2(b, p), U2(b, p + 2)), p + 4)) else Err(Truncated)
    else if name == SYNTHETIC then Ok(Parsed(Synthetic, p))
    else if name == SIGNATURE then MapValue(ParseU2(b, p), i => Signature(i))
    else if name == SOURCE_FILE then MapValue(ParseU2(b, p), i => SourceFile(i))
    else if name == SOURCE_DEBUG_EXTENSION then MapValue(ParseUtf(b, p), s => SourceDebugExtension(s))
    else if name == LINE_NUMBER_TABLE then
      MapValue(ParseCounted(b, p, ParseLineNumber), ls => LineNumberTable(ls))
    else if name == LOCAL_VARIABLE_TABLE then
      MapValue(ParseCounted(b, p, ParseLocalVariable), ls => LocalVariableTable(ls))
    else if name == LOCAL_VARIABLE_TYPE_TABLE then
      MapValue(ParseCounted(b, p, ParseLocalVariableType), ls => LocalVariableTypeTable(ls))
    else if name == DEPRECATED then Ok(Parsed(Deprecated, p))
    else ParseLaterInfo(b, p, pool, name, length)
  }

  /** The rest of the name dispatch of ParseInfo: the annotation, bootstrap,
      method-parameter, module and nest attributes, and unknown names. */
  function ParseLaterInfo(b: seq<byte>, p: nat, pool: Pool, name: seq<byte>, length: int): (r: Result<Parsed<Info>>)
    requires !(name == CONSTANT_VALUE || name == CODE || name == STACK_MAP_TABLE || name == EXCEPTIONS ||
               name == INNER_CLASSES || name == ENCLOSING_METHOD || name == SYNTHETIC || name == SIGNATURE ||
               name == SOURCE_FILE || name == SOURCE_DEBUG_EXTENSION || name == LINE_NUMBER_TABLE ||
               name == LOCAL_VARIABLE_TABLE || name == LOCAL_VARIABLE_TYPE_TABLE || name == DEPRECATED)
    ensures Within(b, p, r)
    ensures !IsKnownName(name) ==>
              r == (if length < 0 then Err(BadLength)
                    else if p + length <= |b| then Ok(Parsed(Unknown(b[p..p + length]), p + length))
                    else Err(Truncated))
    decreases |b| - p, 4, 0
  {
    LaterDecodersAdvance();
    if IsAnnotationsName(name) then MapValue(ParseCounted(b, p, ParseAnnotation), xs => Annotations(xs))
    else if name == ANNOTATION_DEFAULT then MapValue(ParseElementValue(b, p), v => AnnotationDefault(v))
    else if name == BOOTSTRAP_METHODS then
      MapValue(ParseCounted(b, p, ParseBootstrapMethod), ms => BootstrapMethods(ms))
    else if name == METHOD_PARAMETERS then
      MapValue(ParseCounted(b, p, ParseMethodParameter), ps => MethodParameters(ps))
    else if name == MODULE_ATTRIBUTE then MapValue(ParseModule(b, p), m => ModuleAttr(m))
    else if name == MODULE_PACKAGES then MapValue(ParseCounted(b, p, ParseU2), xs => ModulePackages(xs))
    else if name == MODULE_MAIN_CLASS then MapValue(ParseU2(b, p), i => ModuleMainClass(i))
    else if name == NEST_HOST then MapValue(ParseU2(b, p), i => NestHost(i))
    else if name == NEST_MEMBERS then MapValue(ParseCounted(b, p, ParseU2), xs => NestMembers(xs))
    else if length < 0 then Err(BadLength)
    else MapValue(ParseBytes(b, p, length), bytes => Unknown(bytes))
  }

  // ---------------------------------------------------------------------
  // The recursive list decoders are ordinary counted lists

  /** Each attribute decoder as a decoder value, for the generic list. */
  function AttributeParser(pool: Pool): Parser<Attribute>
  {
    (b: seq<byte>, p: nat) => ParseAttribute(b, p, pool)
  }

  lemma {:induction false} ElementValuesAsSeq(b: seq<byte>, p: nat, n: nat)
    ensures ParseElementValues(b, p, n) == ParseSeq(b, p, n, ParseElementValue)
  {
    if n > 0 {
      ElementValuesAsSeq(b, p, n - 1);
    }
  }

  lemma {:induction false} PairsAsSeq(b: seq<byte>, p: nat, n: nat)
    ensures ParsePairs(b, p, n) == ParseSeq(b, p, n, ParsePair)
  {
    if n > 0 {
      PairsAsSeq(b, p, n - 1);
    }
  }

  lemma {:induction false} AttributesAsSeq(b: seq<byte>, p: nat, n: nat, pool: Pool)
    ensures ParseAttributes(b, p, n, pool) == ParseSeq(b, p, n, AttributeParser(pool))
  {
    if n > 0 {
      AttributesAsSeq(b, p, n - 1, pool);
    }
  }
}
