/**
 * The attribute decoder as the Java constructors run it: each reader
 * advances a cursor over the input and fills a fresh array in a loop, one
 * element per iteration, exactly as `xs = new X[count]; for (...) xs[i] =
 * new X(stream);` does. Every reader is proved to return what the
 * corresponding function of AttributeDecoding describes, including the
 * failure of the first element that cannot be read.
 *
 * Records read by straight-line code without loops (InnerClass,
 * LineNumberTable, LocalVariableTable, MethodParameters, Module.Requires,
 * Code.ExceptionTable, VerificationTypeInfo) are read by their functions
 * directly; the lists of them use Bytes.ReadSeq and Bytes.ReadCounted.
 */
module AttributeReading {
  import opened Bytes
  import opened ConstantPool
  import opened Attributes
  import opened AttributeDecoding

  // ---------------------------------------------------------------------
  // Stack-map frames

  /** StackMapFrame(stream), with the loops that read the locals and the
      stack of an append or full frame. */
  method ReadFrame(b: seq<byte>, p: nat) returns (r: Result<Parsed<StackMapFrame>>)
    ensures r == ParseFrame(b, p)
  {
    if p >= |b| {
      return Err(Truncated);
    }
    var t := b[p];
    if t <= SAME_MAX {
      return Ok(Parsed(SameFrame(t), p + 1));
    } else if t <= SAME_LOCALS_1_STACK_ITEM_MAX {
      var delta: u16 := t - 64;
      var v := ParseVerificationType(b, p + 1);
      return MapValue(v, v => SameLocals1StackItem(delta, v));
    } else if t < SAME_LOCALS_1_STACK_ITEM_EXTENDED {
      return Err(BadTag);
    }
    if p + 3 > |b| {
      return Err(Truncated);
    }
    var delta := U2(b, p + 1);
    if t == SAME_LOCALS_1_STACK_ITEM_EXTENDED {
      var v := ParseVerificationType(b, p + 3);
      r := MapValue(v, v => SameLocals1StackItemExtended(delta, v));
    } else if t <= CHOP_MAX {
      r := Ok(Parsed(ChopFrame(t, delta), p + 3));
    } else if t == SAME_FRAME_EXTENDED {
      r := Ok(Parsed(SameFrameExtended(delta), p + 3));
    } else if t <= APPEND_MAX {
      var locals := ReadSeq(b, p + 3, t - APPEND_MIN + 1, ParseVerificationType);
      r := MapValue(locals, ls => AppendFrame(delta, ls));
    } else {
      var locals := ReadCounted(b, p + 3, ParseVerificationType);
      if locals.Err? {
        return Err(locals.failure);
      }
      var stack := ReadCounted(b, locals.value.next, ParseVerificationType);
      r := MapValue(stack, st => FullFrame(delta, locals.value.value, st));
    }
  }

  /** The StackMapTable body: a u2 count, then that many frames. */
  method ReadStackMapTable(b: seq<byte>, p: nat) returns (r: Result<Parsed<seq<StackMapFrame>>>)
    ensures r == ParseCounted(b, p, ParseFrame)
  {
    if p + 2 > |b| {
      return Err(Truncated);
    }
    var n := U2(b, p);
    var xs := new StackMapFrame[n];
    var pos: nat := p + 2;
    for i := 0 to n
      invariant ParseSeq(b, p + 2, i, ParseFrame) == Ok(Parsed(xs[..i], pos))
    {
      var x := ReadFrame(b, pos);
      if x.Err? {
        ParseSeqErrPersists(b, p + 2, i + 1, n, ParseFrame);
        return Err(x.failure);
      }
      xs[i] := x.value.value;
      assert xs[..i + 1] == xs[..i] + [xs[i]];
      pos := x.value.next;
    }
    assert xs[..] == xs[..n];
    return Ok(Parsed(xs[..], pos));
  }

  // ---------------------------------------------------------------------
  // Bootstrap methods and the Module descriptor

  /** BootstrapMethods(stream): the reference, then the argument loop. */
  method ReadBootstrapMethod(b: seq<byte>, p: nat) returns (r: Result<Parsed<BootstrapMethod>>)
    ensures r == ParseBootstrapMethod(b, p)
  {
    if p + 2 > |b| {
      return Err(Truncated);
    }
    var args := ReadCounted(b, p + 2, ParseU2);
    r := MapValue(args, args => BootstrapMethod(U2(b, p), args));
  }

  /** The BootstrapMethods body: a u2 count, then that many entries. */
  method ReadBootstrapMethods(b: seq<byte>, p: nat) returns (r: Result<Parsed<seq<BootstrapMethod>>>)
    ensures r == ParseCounted(b, p, ParseBootstrapMethod)
  {
    if p + 2 > |b| {
      return Err(Truncated);
    }
    var n := U2(b, p);
    var xs := new BootstrapMethod[n];
    var pos: nat := p + 2;
    for i := 0 to n
      invariant ParseSeq(b, p + 2, i, ParseBootstrapMethod) == Ok(Parsed(xs[..i], pos))
    {
      var x := ReadBootstrapMethod(b, pos);
      if x.Err? {
        ParseSeqErrPersists(b, p + 2, i + 1, n, ParseBootstrapMethod);
        return Err(x.failure);
      }
      xs[i] := x.value.value;
      assert xs[..i + 1] == xs[..i] + [xs[i]];
      pos := x.value.next;
    }
    assert xs[..] == xs[..n];
    return Ok(Parsed(xs[..], pos));
  }

  /** Module.Exports(stream): index, flags, then the exports-to loop. */
  method ReadExports(b: seq<byte>, p: nat) returns (r: Result<Parsed<Exports>>)
    ensures r == ParseExports(b, p)
  {
    if p + 4 > |b| {
      return Err(Truncated);
    }
    var to := ReadCounted(b, p + 4, ParseU2);
    r := MapValue(to, to => Exports(U2(b, p), U2(b, p + 2), to));
  }

  /** Module.Opens(stream): index, flags, then the opens-to loop. */
  method ReadOpens(b: seq<byte>, p: nat) returns (r: Result<Parsed<Opens>>)
    ensures r == ParseOpens(b, p)
  {
    if p + 4 > |b| {
      return Err(Truncated);
    }
    var to := ReadCounted(b, p + 4, ParseU2);
    r := MapValue(to, to => Opens(U2(b, p), U2(b, p + 2), to));
  }

  /** Module.Provides(stream): index, then the provides-with loop. */
  method ReadProvides(b: seq<byte>, p: nat) returns (r: Result<Parsed<Provides>>)
    ensures r == ParseProvides(b, p)
  {
    if p + 2 > |b| {
      return Err(Truncated);
    }
    var with := ReadCounted(b, p + 2, ParseU2);
    r := MapValue(with, with => Provides(U2(b, p), with));
  }

  /** The exports loop of Module(stream). */
  method ReadExportsTable(b: seq<byte>, p: nat) returns (r: Result<Parsed<seq<Exports>>>)
    ensures r == ParseCounted(b, p, ParseExports)
  {
    if p + 2 > |b| {
      return Err(Truncated);
    }
    var n := U2(b, p);
    var xs := new Exports[n];
    var pos: nat := p + 2;
    for i := 0 to n
      invariant ParseSeq(b, p + 2, i, ParseExports) == Ok(Parsed(xs[..i], pos))
    {
      var x := ReadExports(b, pos);
      if x.Err? {
        ParseSeqErrPersists(b, p + 2, i + 1, n, ParseExports);
        return Err(x.failure);
      }
      xs[i] := x.value.value;
      assert xs[..i + 1] == xs[..i] + [xs[i]];
      pos := x.value.next;
    }
    assert xs[..] == xs[..n];
    return Ok(Parsed(xs[..], pos));
  }

  /** The opens loop of Module(stream). */
  method ReadOpensTable(b: seq<byte>, p: nat) returns (r: Result<Parsed<seq<Opens>>>)
    ensures r == ParseCounted(b, p, ParseOpens)
  {
    if p + 2 > |b| {
      return Err(Truncated);
    }
    var n := U2(b, p);
    var xs := new Opens[n];
    var pos: nat := p + 2;
    for i := 0 to n
      invariant ParseSeq(b, p + 2, i, ParseOpens) == Ok(Parsed(xs[..i], pos))
    {
      var x := ReadOpens(b, pos);
      if x.Err? {
        ParseSeqErrPersists(b, p + 2, i + 1, n, ParseOpens);
        return Err(x.failure);
      }
      xs[i] := x.value.value;
      assert xs[..i + 1] == xs[..i] + [xs[i]];
      pos := x.value.next;
    }
    assert xs[..] == xs[..n];
    return Ok(Parsed(xs[..], pos));
  }

  /** The provides loop of Module(stream). */
  method ReadProvidesTable(b: seq<byte>, p: nat) returns (r: Result<Parsed<seq<Provides>>>)
    ensures r == ParseCounted(b, p, ParseProvides)
  {
    if p + 2 > |b| {
      return Err(Truncated);
    }
    var n := U2(b, p);
    var xs := new Provides[n];
    var pos: nat := p + 2;
    for i := 0 to n
      invariant ParseSeq(b, p + 2, i, ParseProvides) == Ok(Parsed(xs[..i], pos))
    {
      var x := ReadProvides(b, pos);
      if x.Err? {
        ParseSeqErrPersists(b, p + 2, i + 1, n, ParseProvides);
        return Err(x.failure);
      }
      xs[i] := x.value.value;
      assert xs[..i + 1] == xs[..i] + [xs[i]];
      pos := x.value.next;
    }
    assert xs[..] == xs[..n];
    return Ok(Parsed(xs[..], pos));
  }

  /** Module(stream): three u2 fields and five counted loops, in order. */
  method ReadModule(b: seq<byte>, p: nat) returns (r: Result<Parsed<ModuleDescriptor>>)
    ensures r == ParseModule(b, p)
  {
    if p + 6 > |b| {
      return Err(Truncated);
    }
    var requirements := ReadCounted(b, p + 6, ParseRequires);
    if requirements.Err? {
      return Err(requirements.failure);
    }
    var exports := ReadExportsTable(b, requirements.value.next);
    if exports.Err? {
      return Err(exports.failure);
    }
    var opens := ReadOpensTable(b, exports.value.next);
    if opens.Err? {
      return Err(opens.failure);
    }
    var uses := ReadCounted(b, opens.value.next, ParseU2);
    if uses.Err? {
      return Err(uses.failure);
    }
    var providesTable := ReadProvidesTable(b, uses.value.next);
    r := MapValue(providesTable, provided => ModuleDescriptor(U2(b, p), U2(b, p + 2), U2(b, p + 4),
                                                         requirements.value.value, exports.value.value,
                                                         opens.value.value, uses.value.value, provided));
  }

  // ---------------------------------------------------------------------
  // Element values and annotations

  /** ElementValue(stream). */
  method ReadElementValue(b: seq<byte>, p: nat) returns (r: Result<Parsed<ElementValue>>)
    ensures r == ParseElementValue(b, p)
    decreases |b| - p, 0, 0
  {
    if p >= |b| {
      return Err(Truncated);
    }
    var t := b[p];
    if IsConstTag(t) {
      r := MapValue(ParseU2(b, p + 1), i => ConstValue(t, i));
    } else if t == TAG_ENUM {
      if p + 5 <= |b| {
        r := Ok(Parsed(EnumValue(U2(b, p + 1), U2(b, p + 3)), p + 5));
      } else {
        r := Err(Truncated);
      }
    } else if t == TAG_CLASS {
      r := MapValue(ParseU2(b, p + 1), i => ClassValue(i));
    } else if t == TAG_ANNOTATION {
      var a := ReadAnnotation(b, p + 1);
      r := MapValue(a, a => AnnotationValue(a));
    } else if t == TAG_ARRAY {
      if p + 3 > |b| {
        return Err(Truncated);
      }
      var vs := ReadElementValues(b, p + 3, U2(b, p + 1));
      r := MapValue(vs, vs => ArrayValue(vs));
    } else {
      r := Err(BadTag);
    }
  }

  /** One round of the `values` loop. */
  lemma ElementValueLoopStep(b: seq<byte>, p: nat, i: nat, n: nat, xs: seq<ElementValue>, pos: nat)
    requires i < n
    requires ParseSeq(b, p, i, ParseElementValue) == Ok(Parsed(xs, pos))
    ensures p <= pos && (pos == p || pos <= |b|)
    ensures var x := ParseElementValue(b, pos);
      && (x.Err? ==> ParseSeq(b, p, n, ParseElementValue) == Err(x.failure))
      && (x.Ok? ==> ParseSeq(b, p, i + 1, ParseElementValue) == Ok(Parsed(xs + [x.value.value], x.value.next)))
  {
    assert Advancing(ParseElementValue);
    if ParseElementValue(b, pos).Err? {
      ParseSeqErrPersists(b, p, i + 1, n, ParseElementValue);
    }
  }

  /** The `values` loop of an array element value. */
  method ReadElementValues(b: seq<byte>, p: nat, n: nat) returns (r: Result<Parsed<seq<ElementValue>>>)
    ensures r == ParseElementValues(b, p, n)
    decreases |b| - p, 1, n
  {
    var xs := new ElementValue[n];
    var pos: nat := p;
    for i := 0 to n
      invariant ParseSeq(b, p, i, ParseElementValue) == Ok(Parsed(xs[..i], pos))
    {
      ElementValueLoopStep(b, p, i, n, xs[..i], pos);
      var x := ReadElementValue(b, pos);
      if x.Err? {
        ElementValuesAsSeq(b, p, n);
        return Err(x.failure);
      }
      xs[i] := x.value.value;
      assert xs[..i + 1] == xs[..i] + [xs[i]];
      pos := x.value.next;
    }
    ElementValuesAsSeq(b, p, n);
    assert xs[..] == xs[..n];
    return Ok(Parsed(xs[..], pos));
  }

  /** ElementValuePair(stream). */
  method ReadPair(b: seq<byte>, p: nat) returns (r: Result<Parsed<ElementValuePair>>)
    ensures r == ParsePair(b, p)
    decreases |b| - p, 0, 0
  {
    if p + 2 > |b| {
      return Err(Truncated);
    }
    var v := ReadElementValue(b, p + 2);
    r := MapValue(v, v => ElementValuePair(U2(b, p), v));
  }

  /** One round of the element-value-pair loop. */
  lemma PairLoopStep(b: seq<byte>, p: nat, i: nat, n: nat, xs: seq<ElementValuePair>, pos: nat)
    requires i < n
    requires ParseSeq(b, p, i, ParsePair) == Ok(Parsed(xs, pos))
    ensures p <= pos && (pos == p || pos <= |b|)
    ensures var x := ParsePair(b, pos);
      && (x.Err? ==> ParseSeq(b, p, n, ParsePair) == Err(x.failure))
      && (x.Ok? ==> ParseSeq(b, p, i + 1, ParsePair) == Ok(Parsed(xs + [x.value.value], x.value.next)))
  {
    assert Advancing(ParsePair);
    if ParsePair(b, pos).Err? {
      ParseSeqErrPersists(b, p, i + 1, n, ParsePair);
    }
  }

  /** The element-value-pair loop of Annotation(stream). */
  method ReadPairs(b: seq<byte>, p: nat, n: nat) returns (r: Result<Parsed<seq<ElementValuePair>>>)
    ensures r == ParsePairs(b, p, n)
    decreases |b| - p, 1, n
  {
    var xs := new ElementValuePair[n];
    var pos: nat := p;
    for i := 0 to n
      invariant ParseSeq(b, p, i, ParsePair) == Ok(Parsed(xs[..i], pos))
    {
      PairLoopStep(b, p, i, n, xs[..i], pos);
      var x := ReadPair(b, pos);
      if x.Err? {
        PairsAsSeq(b, p, n);
        return Err(x.failure);
      }
      xs[i] := x.value.value;
      assert xs[..i + 1] == xs[..i] + [xs[i]];
      pos := x.value.next;
    }
    PairsAsSeq(b, p, n);
    assert xs[..] == xs[..n];
    return Ok(Parsed(xs[..], pos));
  }

  /** Annotation(stream). */
  method ReadAnnotation(b: seq<byte>, p: nat) returns (r: Result<Parsed<Annotation>>)
    ensures r == ParseAnnotation(b, p)
    decreases |b| - p, 2, 0
  {
    if p + 4 > |b| {
      return Err(Truncated);
    }
    var pairs := ReadPairs(b, p + 4, U2(b, p + 2));
    r := MapValue(pairs, ps => Annotation(U2(b, p), ps));
  }

  /** The body shared by the six annotation attributes: a u2 count, then that many annotations. */
  method ReadAnnotations(b: seq<byte>, p: nat) returns (r: Result<Parsed<seq<Annotation>>>)
    ensures r == ParseCounted(b, p, ParseAnnotation)
  {
    if p + 2 > |b| {
      return Err(Truncated);
    }
    var n := U2(b, p);
    var xs := new Annotation[n];
    var pos: nat := p + 2;
    for i := 0 to n
      invariant ParseSeq(b, p + 2, i, ParseAnnotation) == Ok(Parsed(xs[..i], pos))
    {
      var x := ReadAnnotation(b, pos);
      if x.Err? {
        ParseSeqErrPersists(b, p + 2, i + 1, n, ParseAnnotation);
        return Err(x.failure);
      }
      xs[i] := x.value.value;
      assert xs[..i + 1] == xs[..i] + [xs[i]];
      pos := x.value.next;
    }
    assert xs[..] == xs[..n];
    return Ok(Parsed(xs[..], pos));
  }

  // ---------------------------------------------------------------------
  // Attributes and Code bodies

  /** AttributeInfo(stream, pool): the header, then the body by name. */
  method ReadAttribute(b: seq<byte>, p: nat, pool: Pool) returns (r: Result<Parsed<Attribute>>)
    ensures r == ParseAttribute(b, p, pool)
    decreases |b| - p, 0, 0
  {
    if p + 2 > |b| {
      return Err(Truncated);
    }
    var nameIndex := U2(b, p);
    var name := AttributeName(pool, nameIndex);
    if name.None? {
      return Err(BadReference);
    }
    if p + 6 > |b| {
      return Err(Truncated);
    }
    var length := S4(b, p + 2);
    var info := ReadInfo(b, p + 6, pool, name.value, length);
    r := MapValue(info, info => Attribute(nameIndex, length, info));
  }

  /** One round of the attribute loop: where the next attribute starts,
      and what the list is after it. */
  lemma AttributeLoopStep(b: seq<byte>, p: nat, i: nat, n: nat, pool: Pool, xs: seq<Attribute>, pos: nat)
    requires i < n
    requires ParseSeq(b, p, i, AttributeParser(pool)) == Ok(Parsed(xs, pos))
    ensures p <= pos && (pos == p || pos <= |b|)
    ensures var x := ParseAttribute(b, pos, pool);
      && (x.Err? ==> ParseSeq(b, p, n, AttributeParser(pool)) == Err(x.failure))
      && (x.Ok? ==> ParseSeq(b, p, i + 1, AttributeParser(pool)) == Ok(Parsed(xs + [x.value.value], x.value.next)))
  {
    assert Advancing(AttributeParser(pool));
    if ParseAttribute(b, pos, pool).Err? {
      ParseSeqErrPersists(b, p, i + 1, n, AttributeParser(pool));
    }
  }

  /** The attribute loop of Code, AbstractInfo and ClassInfo, after the count has been read. */
  method ReadAttributes(b: seq<byte>, p: nat, n: nat, pool: Pool) returns (r: Result<Parsed<seq<Attribute>>>)
    ensures r == ParseAttributes(b, p, n, pool)
    decreases |b| - p, 1, n
  {
    var xs := new Attribute[n];
    var pos: nat := p;
    for i := 0 to n
      invariant ParseSeq(b, p, i, AttributeParser(pool)) == Ok(Parsed(xs[..i], pos))
    {
      AttributeLoopStep(b, p, i, n, pool, xs[..i], pos);
      var x := ReadAttribute(b, pos, pool);
      if x.Err? {
        AttributesAsSeq(b, p, n, pool);
        return Err(x.failure);
      }
      xs[i] := x.value.value;
      assert xs[..i + 1] == xs[..i] + [xs[i]];
      pos := x.value.next;
    }
    AttributesAsSeq(b, p, n, pool);
    assert xs[..] == xs[..n];
    return Ok(Parsed(xs[..], pos));
  }

  /** Code(stream, pool). */
  method ReadCode(b: seq<byte>, p: nat, pool: Pool) returns (r: Result<Parsed<Code>>)
    ensures r == ParseCode(b, p, pool)
    decreases |b| - p, 3, 0
  {
    if p + 8 > |b| {
      return Err(Truncated);
    }
    var length := S4(b, p + 4);
    if length <= 0 || length >= 0x1_0000 {
      return Err(BadLength);
    }
    if p + 8 + length > |b| {
      return Err(Truncated);
    }
    var code := b[p + 8..p + 8 + length];
    var handlers := ReadCounted(b, p + 8 + length, ParseHandler);
    if handlers.Err? {
      return Err(handlers.failure);
    }
    var q := handlers.value.next;
    if q + 2 > |b| {
      return Err(Truncated);
    }
    var attrs := ReadAttributes(b, q + 2, U2(b, q), pool);
    r := MapValue(attrs, attrs => Code(U2(b, p), U2(b, p + 2), code, handlers.value.value, attrs));
  }

  /** The `switch (attributeName)` of AttributeInfo(stream, pool). The
      bodies that loop are read by the readers above; the straight-line ones
      (a single index, two indices, a readUTF string, nothing, or the opaque
      bytes of an unknown name) are read by ParseInfo itself. */
  method ReadInfo(b: seq<byte>, p: nat, pool: Pool, name: seq<byte>, length: int) returns (r: Result<Parsed<Info>>)
    ensures r == ParseInfo(b, p, pool, name, length)
    decreases |b| - p, 5, 0
  {
    if name == CONSTANT_VALUE {
      r := ParseInfo(b, p, pool, name, length);
    } else if name == CODE {
      var c := ReadCode(b, p, pool);
      r := MapValue(c, c => CodeAttr(c));
    } else if name == STACK_MAP_TABLE {
      var fs := ReadStackMapTable(b, p);
      r := MapValue(fs, fs => StackMapTable(fs));
    } else if name == EXCEPTIONS {
      var xs := ReadCounted(b, p, ParseU2);
      r := MapValue(xs, xs => Exceptions(xs));
    } else if name == INNER_CLASSES {
      var cs := ReadCounted(b, p, ParseInnerClass);
      r := MapValue(cs, cs => InnerClasses(cs));
    } else if name == ENCLOSING_METHOD || name == SYNTHETIC || name == SIGNATURE ||
              name == SOURCE_FILE || name == SOURCE_DEBUG_EXTENSION {
      r := ParseInfo(b, p, pool, name, length);
    } else if name == LINE_NUMBER_TABLE {
      var ls := ReadCounted(b, p, ParseLineNumber);
      r := MapValue(ls, ls => LineNumberTable(ls));
    } else if name == LOCAL_VARIABLE_TABLE {
      var ls := ReadCounted(b, p, ParseLocalVariable);
      r := MapValue(ls, ls => LocalVariableTable(ls));
    } else if name == LOCAL_VARIABLE_TYPE_TABLE {
      var ls := ReadCounted(b, p, ParseLocalVariableType);
      r := MapValue(ls, ls => LocalVariableTypeTable(ls));
    } else if name == DEPRECATED {
      r := ParseInfo(b, p, pool, name, length);
    } else {
      r := ReadLaterInfo(b, p, pool, name, length);
    }
  }

  /** The rest of the dispatch of ReadInfo, as ParseLaterInfo. */
  method ReadLaterInfo(b: seq<byte>, p: nat, pool: Pool, name: seq<byte>, length: int) returns (r: Result<Parsed<Info>>)
    requires !(name == CONSTANT_VALUE || name == CODE || name == STACK_MAP_TABLE || name == EXCEPTIONS ||
               name == INNER_CLASSES || name == ENCLOSING_METHOD || name == SYNTHETIC || name == SIGNATURE ||
               name == SOURCE_FILE || name == SOURCE_DEBUG_EXTENSION || name == LINE_NUMBER_TABLE ||
               name == LOCAL_VARIABLE_TABLE || name == LOCAL_VARIABLE_TYPE_TABLE || name == DEPRECATED)
    ensures r == ParseLaterInfo(b, p, pool, name, length)
    decreases |b| - p, 4, 0
  {
    if IsAnnotationsName(name) {
      var xs := ReadAnnotations(b, p);
      r := MapValue(xs, xs => Annotations(xs));
    } else if name == ANNOTATION_DEFAULT {
      var v := ReadElementValue(b, p);
      r := MapValue(v, v => AnnotationDefault(v));
    } else if name == BOOTSTRAP_METHODS {
      var ms := ReadBootstrapMethods(b, p);
      r := MapValue(ms, ms => BootstrapMethods(ms));
    } else if name == METHOD_PARAMETERS {
      var ps := ReadCounted(b, p, ParseMethodParameter);
      r := MapValue(ps, ps => MethodParameters(ps));
    } else if name == MODULE_ATTRIBUTE {
      var m := ReadModule(b, p);
      r := MapValue(m, m => ModuleAttr(m));
    } else if name == MODULE_PACKAGES {
      var xs := ReadCounted(b, p, ParseU2);
      r := MapValue(xs, xs => ModulePackages(xs));
    } else if name == MODULE_MAIN_CLASS || name == NEST_HOST {
      r := ParseLaterInfo(b, p, pool, name, length);
    } else if name == NEST_MEMBERS {
      var xs := ReadCounted(b, p, ParseU2);
      r := MapValue(xs, xs => NestMembers(xs));
    } else {
      r := ParseLaterInfo(b, p, pool, name, length);
    }
  }
}
