/**
 * Every decoder reads only the bytes it consumes: one that succeeds on some
 * input gives the same value, ending at the same place, on any longer input
 * that starts with it. The class decoder is the exception that proves the
 * rule: it must end exactly at the end of its input, so a class file with
 * any bytes appended is refused as trailing data.
 */
module PrefixStability {
  import opened Bytes
  import opened ConstantPool
  import opened Attributes
  import opened AttributeDecoding
  import opened Members
  import opened ClassFile

  /** `f`, started anywhere from `p` on, succeeds on `b` only with the result
      it also gives on `b + ext`. */
  ghost predicate StableFrom<T>(f: Parser<T>, b: seq<byte>, ext: seq<byte>, p: nat)
  {
    forall q: nat | p <= q :: f(b, q).Ok? ==> f(b + ext, q) == f(b, q)
  }

  lemma SlicePrefix(b: seq<byte>, ext: seq<byte>, i: nat, j: nat)
    requires i <= j <= |b|
    ensures (b + ext)[i..j] == b[i..j]
  {
    assert forall k | 0 <= k < j - i :: (b + ext)[i..j][k] == b[i..j][k];
  }

  /** A counted list of values that are each stable is stable. */
  lemma {:induction false} SeqStable<T>(f: Parser<T>, b: seq<byte>, ext: seq<byte>, p: nat, n: nat)
    requires Advancing(f) && StableFrom(f, b, ext, p)
    requires ParseSeq(b, p, n, f).Ok?
    ensures ParseSeq(b + ext, p, n, f) == ParseSeq(b, p, n, f)
    decreases n
  {
    if n > 0 {
      SeqStable(f, b, ext, p, n - 1);
    }
  }

  lemma CountedStable<T>(f: Parser<T>, b: seq<byte>, ext: seq<byte>, p: nat)
    requires Advancing(f) && StableFrom(f, b, ext, p + 2)
    requires ParseCounted(b, p, f).Ok?
    ensures ParseCounted(b + ext, p, f) == ParseCounted(b, p, f)
  {
    SeqStable(f, b, ext, p + 2, U2(b, p));
  }

  // ---------------------------------------------------------------------
  // The constant pool

  lemma EntryStable(b: seq<byte>, ext: seq<byte>, p: nat)
    requires ParseEntry(b, p).Ok?
    ensures ParseEntry(b + ext, p) == ParseEntry(b, p)
  {
    var t := b[p];
    if t == UTF8 {
      SlicePrefix(b, ext, p + 3, p + 3 + U2(b, p + 1));
    } else if t in {INTEGER, FLOAT, LONG, DOUBLE} {
      SlicePrefix(b, ext, p + 1, p + 1 + FixedPayload(t));
    }
  }

  lemma {:induction false} FillPoolStable(b: seq<byte>, ext: seq<byte>, pos: nat, i: nat, slots: Pool)
    requires 1 <= i
    requires FillPool(b, pos, i, slots).Ok?
    ensures FillPool(b + ext, pos, i, slots) == FillPool(b, pos, i, slots)
    decreases |slots| - i
  {
    if i < |slots| {
      EntryStable(b, ext, pos);
      var e := ParseEntry(b, pos).value;
      FillPoolStable(b, ext, e.next, if e.value.Wide() then i + 2 else i + 1, slots[i := Some(e.value)]);
    }
  }

  /** readConstantPool reads the same pool from any longer input. */
  lemma PoolStable(b: seq<byte>, ext: seq<byte>, p: nat)
    requires ParsePool(b, p).Ok?
    ensures ParsePool(b + ext, p) == ParsePool(b, p)
  {
    FillPoolStable(b, ext, p + 2, 1, seq(U2(b, p), _ => None));
  }

  // ---------------------------------------------------------------------
  // Records without nested attributes

  lemma U2Prefix(b: seq<byte>, ext: seq<byte>, p: nat)
    requires p + 2 <= |b|
    ensures U2(b + ext, p) == U2(b, p)
  {
    assert (b + ext)[p] == b[p] && (b + ext)[p + 1] == b[p + 1];
  }

  lemma S4Prefix(b: seq<byte>, ext: seq<byte>, p: nat)
    requires p + 4 <= |b|
    ensures S4(b + ext, p) == S4(b, p)
  {
    U2Prefix(b, ext, p);
    U2Prefix(b, ext, p + 2);
  }

  lemma U2Stable(b: seq<byte>, ext: seq<byte>, p: nat)
    ensures StableFrom(ParseU2, b, ext, p)
  {
    forall q: nat | p <= q && ParseU2(b, q).Ok?
      ensures ParseU2(b + ext, q) == ParseU2(b, q)
    {
      U2Prefix(b, ext, q);
    }
  }

  lemma VerificationTypeStable(b: seq<byte>, ext: seq<byte>, p: nat)
    ensures StableFrom(ParseVerificationType, b, ext, p)
  {
    forall q: nat | p <= q && ParseVerificationType(b, q).Ok?
      ensures ParseVerificationType(b + ext, q) == ParseVerificationType(b, q)
    {
      assert (b + ext)[q] == b[q];
      if b[q] >= 7 {
        U2Prefix(b, ext, q + 1);
      }
    }
  }

  lemma InnerClassStable(b: seq<byte>, ext: seq<byte>, p: nat)
    ensures StableFrom(ParseInnerClass, b, ext, p)
  {
    forall q: nat | p <= q && ParseInnerClass(b, q).Ok?
      ensures ParseInnerClass(b + ext, q) == ParseInnerClass(b, q)
    {
      U2Prefix(b, ext, q);
      U2Prefix(b, ext, q + 2);
      U2Prefix(b, ext, q + 4);
      U2Prefix(b, ext, q + 6);
    }
  }

  lemma HandlerStable(b: seq<byte>, ext: seq<byte>, p: nat)
    ensures StableFrom(ParseHandler, b, ext, p)
  {
    forall q: nat | p <= q && ParseHandler(b, q).Ok?
      ensures ParseHandler(b + ext, q) == ParseHandler(b, q)
    {
      U2Prefix(b, ext, q);
      U2Prefix(b, ext, q + 2);
      U2Prefix(b, ext, q + 4);
      U2Prefix(b, ext, q + 6);
    }
  }

  lemma LineNumberStable(b: seq<byte>, ext: seq<byte>, p: nat)
    ensures StableFrom(ParseLineNumber, b, ext, p)
  {
    forall q: nat | p <= q && ParseLineNumber(b, q).Ok?
      ensures ParseLineNumber(b + ext, q) == ParseLineNumber(b, q)
    {
      U2Prefix(b, ext, q);
      U2Prefix(b, ext, q + 2);
    }
  }

  lemma MethodParameterStable(b: seq<byte>, ext: seq<byte>, p: nat)
    ensures StableFrom(ParseMethodParameter, b, ext, p)
  {
    forall q: nat | p <= q && ParseMethodParameter(b, q).Ok?
      ensures ParseMethodParameter(b + ext, q) == ParseMethodParameter(b, q)
    {
      U2Prefix(b, ext, q);
      U2Prefix(b, ext, q + 2);
    }
  }

  lemma RequiresStable(b: seq<byte>, ext: seq<byte>, p: nat)
    ensures StableFrom(ParseRequires, b, ext, p)
  {
    forall q: nat | p <= q && ParseRequires(b, q).Ok?
      ensures ParseRequires(b + ext, q) == ParseRequires(b, q)
    {
      U2Prefix(b, ext, q);
      U2Prefix(b, ext, q + 2);
      U2Prefix(b, ext, q + 4);
    }
  }

  lemma LocalVariableStable(b: seq<byte>, ext: seq<byte>, p: nat)
    ensures StableFrom(ParseLocalVariable, b, ext, p)
    ensures StableFrom(ParseLocalVariableType, b, ext, p)
  {
    forall q: nat | p <= q && (ParseLocalVariable(b, q).Ok? || ParseLocalVariableType(b, q).Ok?)
      ensures ParseLocalVariable(b + ext, q) == ParseLocalVariable(b, q)
      ensures ParseLocalVariableType(b + ext, q) == ParseLocalVariableType(b, q)
    {
      U2Prefix(b, ext, q);
      U2Prefix(b, ext, q + 2);
      U2Prefix(b, ext, q + 4);
      U2Prefix(b, ext, q + 6);
      U2Prefix(b, ext, q + 8);
    }
  }

  lemma FrameStable(b: seq<byte>, ext: seq<byte>, p: nat)
    requires ParseFrame(b, p).Ok?
    ensures ParseFrame(b + ext, p) == ParseFrame(b, p)
  {
    var t := b[p];
    assert (b + ext)[p] == t;
    VerificationTypeStable(b, ext, p + 1);
    assert Advancing(ParseVerificationType);
    if t > SAME_LOCALS_1_STACK_ITEM_MAX {
      U2Prefix(b, ext, p + 1);
      if t > APPEND_MAX {
        CountedStable(ParseVerificationType, b, ext, p + 3);
        CountedStable(ParseVerificationType, b, ext, ParseCounted(b, p + 3, ParseVerificationType).value.next);
      } else if t > SAME_FRAME_EXTENDED {
        SeqStable(ParseVerificationType, b, ext, p + 3, t - 251);
      }
    }
  }

  lemma FramesStable(b: seq<byte>, ext: seq<byte>, p: nat)
    ensures StableFrom(ParseFrame, b, ext, p)
  {
    forall q: nat | p <= q && ParseFrame(b, q).Ok?
      ensures ParseFrame(b + ext, q) == ParseFrame(b, q)
    {
      FrameStable(b, ext, q);
    }
  }

  /** The u2-counted index list that each of these records ends with. */
  lemma IndexListStable(b: seq<byte>, ext: seq<byte>, p: nat)
    requires ParseCounted(b, p, ParseU2).Ok?
    ensures ParseCounted(b + ext, p, ParseU2) == ParseCounted(b, p, ParseU2)
  {
    U2Stable(b, ext, p + 2);
    assert Advancing(ParseU2);
    CountedStable(ParseU2, b, ext, p);
  }

  lemma BootstrapMethodStable(b: seq<byte>, ext: seq<byte>, p: nat)
    ensures StableFrom(ParseBootstrapMethod, b, ext, p)
  {
    forall q: nat | p <= q && ParseBootstrapMethod(b, q).Ok?
      ensures ParseBootstrapMethod(b + ext, q) == ParseBootstrapMethod(b, q)
    {
      U2Prefix(b, ext, q);
      IndexListStable(b, ext, q + 2);
    }
  }

  lemma ExportsStable(b: seq<byte>, ext: seq<byte>, p: nat)
    ensures StableFrom(ParseExports, b, ext, p)
  {
    forall q: nat | p <= q && ParseExports(b, q).Ok?
      ensures ParseExports(b + ext, q) == ParseExports(b, q)
    {
      U2Prefix(b, ext, q);
      U2Prefix(b, ext, q + 2);
      IndexListStable(b, ext, q + 4);
    }
  }

  lemma OpensStable(b: seq<byte>, ext: seq<byte>, p: nat)
    ensures StableFrom(ParseOpens, b, ext, p)
  {
    forall q: nat | p <= q && ParseOpens(b, q).Ok?
      ensures ParseOpens(b + ext, q) == ParseOpens(b, q)
    {
      U2Prefix(b, ext, q);
      U2Prefix(b, ext, q + 2);
      IndexListStable(b, ext, q + 4);
    }
  }

  lemma ProvidesStable(b: seq<byte>, ext: seq<byte>, p: nat)
    ensures StableFrom(ParseProvides, b, ext, p)
  {
    forall q: nat | p <= q && ParseProvides(b, q).Ok?
      ensures ParseProvides(b + ext, q) == ParseProvides(b, q)
    {
      U2Prefix(b, ext, q);
      IndexListStable(b, ext, q + 2);
    }
  }

  lemma ModuleStable(b: seq<byte>, ext: seq<byte>, p: nat)
    requires ParseModule(b, p).Ok?
    ensures ParseModule(b + ext, p) == ParseModule(b, p)
  {
    U2Prefix(b, ext, p);
    U2Prefix(b, ext, p + 2);
    U2Prefix(b, ext, p + 4);
    RequiresStable(b, ext, p + 8);
    assert Advancing(ParseRequires) && Advancing(ParseExports) && Advancing(ParseOpens) && Advancing(ParseProvides);
    CountedStable(ParseRequires, b, ext, p + 6);
    var q1 := ParseCounted(b, p + 6, ParseRequires).value.next;
    ExportsStable(b, ext, q1 + 2);
    CountedStable(ParseExports, b, ext, q1);
    var q2 := ParseCounted(b, q1, ParseExports).value.next;
    OpensStable(b, ext, q2 + 2);
    CountedStable(ParseOpens, b, ext, q2);
    var q3 := ParseCounted(b, q2, ParseOpens).value.next;
    IndexListStable(b, ext, q3);
    var q4 := ParseCounted(b, q3, ParseU2).value.next;
    ProvidesStable(b, ext, q4 + 2);
    CountedStable(ParseProvides, b, ext, q4);
  }

  // ---------------------------------------------------------------------
  // Element values and annotations

  lemma {:induction false} ElementValueStable(b: seq<byte>, ext: seq<byte>, p: nat)
    requires ParseElementValue(b, p).Ok?
    ensures ParseElementValue(b + ext, p) == ParseElementValue(b, p)
    decreases |b| - p, 0, 0
  {
    var t := b[p];
    assert (b + ext)[p] == t;
    if t == TAG_ANNOTATION {
      AnnotationStable(b, ext, p + 1);
    } else if t == TAG_ARRAY {
      U2Prefix(b, ext, p + 1);
      ElementValuesStable(b, ext, p + 3, U2(b, p + 1));
    } else if t == TAG_ENUM {
      U2Prefix(b, ext, p + 1);
      U2Prefix(b, ext, p + 3);
    } else {
      U2Prefix(b, ext, p + 1);
    }
  }

  lemma {:induction false} ElementValuesStable(b: seq<byte>, ext: seq<byte>, p: nat, n: nat)
    requires ParseElementValues(b, p, n).Ok?
    ensures ParseElementValues(b + ext, p, n) == ParseElementValues(b, p, n)
    decreases |b| - p, 1, n
  {
    if n > 0 {
      ElementValuesStable(b, ext, p, n - 1);
      ElementValueStable(b, ext, ParseElementValues(b, p, n - 1).value.next);
    }
  }

  lemma {:induction false} PairStable(b: seq<byte>, ext: seq<byte>, p: nat)
    requires ParsePair(b, p).Ok?
    ensures ParsePair(b + ext, p) == ParsePair(b, p)
    decreases |b| - p, 0, 0
  {
    U2Prefix(b, ext, p);
    ElementValueStable(b, ext, p + 2);
  }

  lemma {:induction false} PairsStable(b: seq<byte>, ext: seq<byte>, p: nat, n: nat)
    requires ParsePairs(b, p, n).Ok?
    ensures ParsePairs(b + ext, p, n) == ParsePairs(b, p, n)
    decreases |b| - p, 1, n
  {
    if n > 0 {
      PairsStable(b, ext, p, n - 1);
      PairStable(b, ext, ParsePairs(b, p, n - 1).value.next);
    }
  }

  lemma {:induction false} AnnotationStable(b: seq<byte>, ext: seq<byte>, p: nat)
    requires ParseAnnotation(b, p).Ok?
    ensures ParseAnnotation(b + ext, p) == ParseAnnotation(b, p)
    decreases |b| - p, 2, 0
  {
    U2Prefix(b, ext, p);
    U2Prefix(b, ext, p + 2);
    PairsStable(b, ext, p + 4, U2(b, p + 2));
  }

  // ---------------------------------------------------------------------
  // Attributes and Code bodies

  lemma {:induction false} AttributeStable(b: seq<byte>, ext: seq<byte>, p: nat, pool: Pool)
    requires ParseAttribute(b, p, pool).Ok?
    ensures ParseAttribute(b + ext, p, pool) == ParseAttribute(b, p, pool)
    decreases |b| - p, 0, 0
  {
    U2Prefix(b, ext, p);
    S4Prefix(b, ext, p + 2);
    InfoStable(b, ext, p + 6, pool, pool[U2(b, p)].value.bytes, S4(b, p + 2));
  }

  /** The attribute list of Code, AbstractInfo and ClassInfo is stable. */
  lemma {:induction false} AttributesStable(b: seq<byte>, ext: seq<byte>, p: nat, n: nat, pool: Pool)
    requires ParseAttributes(b, p, n, pool).Ok?
    ensures ParseAttributes(b + ext, p, n, pool) == ParseAttributes(b, p, n, pool)
    decreases |b| - p, 1, n
  {
    if n > 0 {
      AttributesStable(b, ext, p, n - 1, pool);
      AttributeStable(b, ext, ParseAttributes(b, p, n - 1, pool).value.next, pool);
    }
  }

  lemma HandlerTableStable(b: seq<byte>, ext: seq<byte>, p: nat)
    requires ParseCounted(b, p, ParseHandler).Ok?
    ensures ParseCounted(b + ext, p, ParseHandler) == ParseCounted(b, p, ParseHandler)
  {
    HandlerStable(b, ext, p + 2);
    assert Advancing(ParseHandler);
    CountedStable(ParseHandler, b, ext, p);
  }

  /** The parts of a Code body at `p`: the code length, the exception table
      ending at `q`, and the attributes after it, ending at `next`. */
  ghost predicate CodePartsAt(b: seq<byte>, p: nat, pool: Pool, length: int, handlers: seq<ExceptionHandler>,
                              q: nat, attrs: seq<Attribute>, next: nat)
  {
    && p + 8 <= |b| && S4(b, p + 4) == length && 0 < length < 0x1_0000 && p + 8 + length <= |b|
    && ParseCounted(b, p + 8 + length, ParseHandler) == Ok(Parsed(handlers, q))
    && q + 2 <= |b| && ParseAttributes(b, q + 2, U2(b, q), pool) == Ok(Parsed(attrs, next))
  }

  /** The parts of a decoded Code body. */
  lemma CodeParts(b: seq<byte>, p: nat, pool: Pool)
    returns (length: int, handlers: seq<ExceptionHandler>, q: nat, attrs: seq<Attribute>, next: nat)
    requires ParseCode(b, p, pool).Ok?
    ensures CodePartsAt(b, p, pool, length, handlers, q, attrs, next)
  {
    length := S4(b, p + 4);
    var h := ParseCounted(b, p + 8 + length, ParseHandler).value;
    handlers, q := h.value, h.next;
    var a := ParseAttributes(b, q + 2, U2(b, q), pool).value;
    attrs, next := a.value, a.next;
  }

  /** The Code body a set of parts makes up. */
  lemma CodeOf(b: seq<byte>, p: nat, pool: Pool, length: int, handlers: seq<ExceptionHandler>, q: nat,
               attrs: seq<Attribute>, next: nat)
    requires CodePartsAt(b, p, pool, length, handlers, q, attrs, next)
    ensures ParseCode(b, p, pool) == Ok(Parsed(Code(U2(b, p), U2(b, p + 2), b[p + 8..p + 8 + length], handlers, attrs), next))
  {
  }

  /** The parts of a Code body decode the same from any longer input. */
  lemma {:induction false} CodePartsStable(b: seq<byte>, ext: seq<byte>, p: nat, pool: Pool, length: int,
                                           handlers: seq<ExceptionHandler>, q: nat, attrs: seq<Attribute>, next: nat)
    requires CodePartsAt(b, p, pool, length, handlers, q, attrs, next)
    ensures CodePartsAt(b + ext, p, pool, length, handlers, q, attrs, next)
    ensures U2(b + ext, p) == U2(b, p) && U2(b + ext, p + 2) == U2(b, p + 2)
    ensures (b + ext)[p + 8..p + 8 + length] == b[p + 8..p + 8 + length]
    decreases |b| - p, 3, 0
  {
    U2Prefix(b, ext, p);
    U2Prefix(b, ext, p + 2);
    S4Prefix(b, ext, p + 4);
    SlicePrefix(b, ext, p + 8, p + 8 + length);
    HandlerTableStable(b, ext, p + 8 + length);
    U2Prefix(b, ext, q);
    AttributesStable(b, ext, q + 2, U2(b, q), pool);
  }

  lemma {:induction false} CodeStable(b: seq<byte>, ext: seq<byte>, p: nat, pool: Pool)
    requires ParseCode(b, p, pool).Ok?
    ensures ParseCode(b + ext, p, pool) == ParseCode(b, p, pool)
    decreases |b| - p, 3, 1
  {
    var length, handlers, q, attrs, next := CodeParts(b, p, pool);
    CodeOf(b, p, pool, length, handlers, q, attrs, next);
    CodePartsStable(b, ext, p, pool, length, handlers, q, attrs, next);
    CodeOf(b + ext, p, pool, length, handlers, q, attrs, next);
  }

  lemma {:induction false} InfoStable(b: seq<byte>, ext: seq<byte>, p: nat, pool: Pool, name: seq<byte>, length: int)
    requires ParseInfo(b, p, pool, name, length).Ok?
    ensures ParseInfo(b + ext, p, pool, name, length) == ParseInfo(b, p, pool, name, length)
    decreases |b| - p, 5, 0
  {
    if name == CONSTANT_VALUE {
      U2Prefix(b, ext, p);
    } else if name == CODE {
      CodeStable(b, ext, p, pool);
    } else if name == STACK_MAP_TABLE {
      FramesStable(b, ext, p + 2);
      assert Advancing(ParseFrame);
      CountedStable(ParseFrame, b, ext, p);
    } else if name == EXCEPTIONS {
      IndexListStable(b, ext, p);
    } else if name == INNER_CLASSES {
      InnerClassStable(b, ext, p + 2);
      assert Advancing(ParseInnerClass);
      CountedStable(ParseInnerClass, b, ext, p);
    } else if name == ENCLOSING_METHOD {
      U2Prefix(b, ext, p);
      U2Prefix(b, ext, p + 2);
    } else if name == SYNTHETIC {
    } else if name == SIGNATURE || name == SOURCE_FILE {
      U2Prefix(b, ext, p);
    } else if name == SOURCE_DEBUG_EXTENSION {
      U2Prefix(b, ext, p);
      SlicePrefix(b, ext, p + 2, p + 2 + U2(b, p));
    } else if name == LINE_NUMBER_TABLE {
      LineNumberStable(b, ext, p + 2);
      assert Advancing(ParseLineNumber);
      CountedStable(ParseLineNumber, b, ext, p);
    } else if name == LOCAL_VARIABLE_TABLE || name == LOCAL_VARIABLE_TYPE_TABLE {
      LocalVariableStable(b, ext, p + 2);
      assert Advancing(ParseLocalVariable) && Advancing(ParseLocalVariableType);
      if name == LOCAL_VARIABLE_TABLE {
        CountedStable(ParseLocalVariable, b, ext, p);
      } else {
        CountedStable(ParseLocalVariableType, b, ext, p);
      }
    } else if name != DEPRECATED {
      LaterInfoStable(b, ext, p, pool, name, length);
    }
  }

  lemma {:induction false} LaterInfoStable(b: seq<byte>, ext: seq<byte>, p: nat, pool: Pool, name: seq<byte>, length: int)
    requires !(name == CONSTANT_VALUE || name == CODE || name == STACK_MAP_TABLE || name == EXCEPTIONS ||
               name == INNER_CLASSES || name == ENCLOSING_METHOD || name == SYNTHETIC || name == SIGNATURE ||
               name == SOURCE_FILE || name == SOURCE_DEBUG_EXTENSION || name == LINE_NUMBER_TABLE ||
               name == LOCAL_VARIABLE_TABLE || name == LOCAL_VARIABLE_TYPE_TABLE || name == DEPRECATED)
    requires ParseLaterInfo(b, p, pool, name, length).Ok?
    ensures ParseLaterInfo(b + ext, p, pool, name, length) == ParseLaterInfo(b, p, pool, name, length)
    decreases |b| - p, 4, 0
  {
    if IsAnnotationsName(name) {
      assert Advancing(ParseAnnotation);
      forall q: nat | p + 2 <= q && ParseAnnotation(b, q).Ok?
        ensures ParseAnnotation(b + ext, q) == ParseAnnotation(b, q)
      {
        AnnotationStable(b, ext, q);
      }
      CountedStable(ParseAnnotation, b, ext, p);
    } else if name == ANNOTATION_DEFAULT {
      ElementValueStable(b, ext, p);
    } else if name == BOOTSTRAP_METHODS {
      BootstrapMethodStable(b, ext, p + 2);
      assert Advancing(ParseBootstrapMethod);
      CountedStable(ParseBootstrapMethod, b, ext, p);
    } else if name == METHOD_PARAMETERS {
      MethodParameterStable(b, ext, p + 2);
      assert Advancing(ParseMethodParameter);
      CountedStable(ParseMethodParameter, b, ext, p);
    } else if name == MODULE_ATTRIBUTE {
      ModuleStable(b, ext, p);
    } else if name == MODULE_PACKAGES || name == NEST_MEMBERS {
      IndexListStable(b, ext, p);
    } else if name == MODULE_MAIN_CLASS || name == NEST_HOST {
      U2Prefix(b, ext, p);
    } else {
      SlicePrefix(b, ext, p, p + length);
    }
  }

  // ---------------------------------------------------------------------
  // Members and the class file

  lemma MembersStable(b: seq<byte>, ext: seq<byte>, p: nat, pool: Pool, kind: MemberKind)
    ensures StableFrom(MemberParser(pool, kind), b, ext, p)
  {
    forall q: nat | p <= q && ParseMember(b, q, pool, kind).Ok?
      ensures ParseMember(b + ext, q, pool, kind) == ParseMember(b, q, pool, kind)
    {
      U2Prefix(b, ext, q);
      U2Prefix(b, ext, q + 2);
      U2Prefix(b, ext, q + 4);
      U2Prefix(b, ext, q + 6);
      AttributesStable(b, ext, q + 8, U2(b, q + 6), pool);
    }
  }

  lemma MemberListStable(b: seq<byte>, ext: seq<byte>, p: nat, pool: Pool, kind: MemberKind, next: nat)
    requires MembersAt(b, p, pool, kind, next)
    ensures MembersAt(b + ext, p, pool, kind, next)
  {
    MembersStable(b, ext, p + 2, pool, kind);
    assert Advancing(MemberParser(pool, kind));
    CountedStable(MemberParser(pool, kind), b, ext, p);
  }

  lemma InterfacesStable(b: seq<byte>, ext: seq<byte>, q: nat, q1: nat)
    requires InterfacesAt(b, q, q1)
    ensures InterfacesAt(b + ext, q, q1)
  {
    IndexListStable(b, ext, q + 6);
  }

  lemma ClassAttributesStable(b: seq<byte>, ext: seq<byte>, p: nat, pool: Pool, next: nat)
    requires AttributesAt(b, p, pool, next)
    ensures AttributesAt(b + ext, p, pool, next)
  {
    U2Prefix(b, ext, p);
    AttributesStable(b, ext, p + 2, U2(b, p), pool);
  }

  /** A class body that decodes up to the end of its input is refused once
      anything follows: its parts decode as before, so the last attribute
      now ends before the end of the input. */
  lemma BodyTrailingData(b: seq<byte>, ext: seq<byte>, q: nat, minor: u16, major: u16, pool: Pool)
    requires ParseClassBody(b, q, minor, major, pool).Ok? && ext != []
    ensures ParseClassBody(b + ext, q, minor, major, pool) == Err(TrailingData)
  {
    var q1, q2, q3 := BodyParts(b, q, minor, major, pool);
    InterfacesStable(b, ext, q, q1);
    MemberListStable(b, ext, q1, pool, Field, q2);
    MemberListStable(b, ext, q2, pool, Method, q3);
    ClassAttributesStable(b, ext, q3, pool, |b|);
    BodyEndsEarly(b + ext, q, minor, major, pool, q1, q2, q3, |b|);
  }

  /** ClassInfo(InputStream) refuses a class file with anything appended. */
  lemma ClassTrailingData(b: seq<byte>, ext: seq<byte>)
    requires ParseClass(b).Ok? && ext != []
    ensures ParseClass(b + ext) == Err(TrailingData)
  {
    U2Prefix(b, ext, 0);
    U2Prefix(b, ext, 2);
    U2Prefix(b, ext, 4);
    U2Prefix(b, ext, 6);
    PoolStable(b, ext, 8);
    var r := ParsePool(b, 8).value;
    BodyTrailingData(b, ext, r.next, U2(b, 4), U2(b, 6), r.value);
  }
}
