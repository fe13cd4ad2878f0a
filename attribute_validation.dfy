/**
 * The validate() methods of AttributeInfo, its nested records and Code, as
 * predicates over the decoded tree and the constant pool. Every rule is a
 * tag check on a pool slot ("slot i exists and has tag t", HasTag), which
 * fails for index 0, an index past the end and the empty slot after a LONG
 * or DOUBLE, as the Java code does by dereferencing null or indexing out of
 * range. The Java walks stop at the first violation; since all violations
 * end validation the same way, the predicates only say whether one exists.
 */
module AttributeValidation {
  import opened Bytes
  import opened ConstantPool
  import opened Attributes

  /** A reference that may be 0 ("none") or must name an entry of tag t. */
  predicate OptionalTag(pool: Pool, i: int, t: u8)
  {
    i == 0 || HasTag(pool, i, t)
  }

  /** Every index in the list names an entry of tag t. */
  predicate AllTagged(pool: Pool, xs: seq<u16>, t: u8)
  {
    forall k | 0 <= k < |xs| :: HasTag(pool, xs[k], t)
  }

  // ---------------------------------------------------------------------
  // Stack-map frames

  /** VerificationTypeInfo.validate: only an Object item is checked. */
  predicate VerificationTypeValid(pool: Pool, v: VerificationType)
  {
    v.ObjectItem? ==> HasTag(pool, v.cpoolIndex, CLASS)
  }

  predicate VerificationTypesValid(pool: Pool, vs: seq<VerificationType>)
  {
    forall k | 0 <= k < |vs| :: VerificationTypeValid(pool, vs[k])
  }

  /** StackMapFrame.validate: the stack entries, then the locals. */
  predicate FrameValid(pool: Pool, f: StackMapFrame)
  {
    VerificationTypesValid(pool, Stack(f)) && VerificationTypesValid(pool, Locals(f))
  }

  // ---------------------------------------------------------------------
  // Small tables

  predicate InnerClassValid(pool: Pool, c: InnerClass)
  {
    HasTag(pool, c.innerClassInfoIndex, CLASS) &&
    OptionalTag(pool, c.outerClassInfoIndex, CLASS) &&
    OptionalTag(pool, c.innerNameIndex, UTF8)
  }

  predicate LocalVariableValid(pool: Pool, v: LocalVariable)
  {
    HasTag(pool, v.nameIndex, UTF8) && HasTag(pool, v.descriptorIndex, UTF8)
  }

  predicate LocalVariableTypeValid(pool: Pool, v: LocalVariableType)
  {
    HasTag(pool, v.nameIndex, UTF8) && HasTag(pool, v.signatureIndex, UTF8)
  }

  /** The reference must be a method handle; an argument only has to be an
      occupied slot, of any tag. */
  predicate BootstrapMethodValid(pool: Pool, m: BootstrapMethod)
  {
    HasTag(pool, m.bootstrapMethodRef, METHOD_HANDLE) &&
    forall k | 0 <= k < |m.bootstrapArguments| :: Occupied(pool, m.bootstrapArguments[k])
  }

  predicate MethodParameterValid(pool: Pool, m: MethodParameter)
  {
    OptionalTag(pool, m.nameIndex, UTF8)
  }

  /** Module.validate. */
  predicate ModuleValid(pool: Pool, m: ModuleDescriptor)
  {
    HasTag(pool, m.moduleNameIndex, ConstantPool.MODULE) &&
    OptionalTag(pool, m.moduleVersionIndex, UTF8) &&
    (forall k | 0 <= k < |m.requiresTable| ::
       HasTag(pool, m.requiresTable[k].requiresIndex, ConstantPool.MODULE) &&
       OptionalTag(pool, m.requiresTable[k].requiresVersionIndex, UTF8)) &&
    (forall k | 0 <= k < |m.exportsTable| ::
       HasTag(pool, m.exportsTable[k].exportsIndex, PACKAGE) &&
       AllTagged(pool, m.exportsTable[k].exportsToIndex, ConstantPool.MODULE)) &&
    (forall k | 0 <= k < |m.opensTable| ::
       HasTag(pool, m.opensTable[k].opensIndex, PACKAGE) &&
       AllTagged(pool, m.opensTable[k].opensToIndex, ConstantPool.MODULE)) &&
    AllTagged(pool, m.usesIndex, CLASS) &&
    (forall k | 0 <= k < |m.providesTable| ::
       HasTag(pool, m.providesTable[k].providesIndex, CLASS) &&
       AllTagged(pool, m.providesTable[k].providesWithIndex, CLASS))
  }

  // ---------------------------------------------------------------------
  // Element values and annotations

  /** The pool tag a constant element value must refer to, by its tag. */
  predicate ConstValueValid(pool: Pool, tag: u8, i: u16)
  {
    if tag == TAG_BYTE || tag == TAG_CHAR || tag == TAG_INT || tag == TAG_SHORT || tag == TAG_BOOLEAN then
      HasTag(pool, i, INTEGER)
    else if tag == TAG_DOUBLE then HasTag(pool, i, DOUBLE)
    else if tag == TAG_FLOAT then HasTag(pool, i, FLOAT)
    else if tag == TAG_LONG then HasTag(pool, i, LONG)
    else if tag == TAG_STRING then HasTag(pool, i, UTF8)
    else true
  }

  /** ElementValue.validate. */
  predicate ElementValueValid(pool: Pool, v: ElementValue)
    decreases v
  {
    match v
    case ConstValue(tag, i) => ConstValueValid(pool, tag, i)
    case EnumValue(t, c) => HasTag(pool, t, UTF8) && HasTag(pool, c, UTF8)
    case ClassValue(c) => HasTag(pool, c, UTF8)
    case AnnotationValue(a) => AnnotationValid(pool, a)
    case ArrayValue(vs) => forall k | 0 <= k < |vs| :: ElementValueValid(pool, vs[k])
  }

  /** Annotation.validate: the type, then each pair's name and value. */
  predicate AnnotationValid(pool: Pool, a: Annotation)
    decreases a
  {
    HasTag(pool, a.typeIndex, UTF8) &&
    forall k | 0 <= k < |a.pairs| ::
      HasTag(pool, a.pairs[k].elementNameIndex, UTF8) && ElementValueValid(pool, a.pairs[k].value)
  }

  // ---------------------------------------------------------------------
  // Attributes and Code bodies

  /** Code.validate for one exception-table entry: the comparisons are not
      strict, so a range ending at the code length, an empty range and a
      handler at the code length all pass. */
  predicate HandlerValid(pool: Pool, codeLength: int, h: ExceptionHandler)
  {
    h.endPc <= codeLength && h.startPc <= h.endPc && h.handlerPc <= codeLength &&
    OptionalTag(pool, h.catchType, CLASS)
  }

  /** Code.validate: the whole exception table, then the nested attributes. */
  predicate CodeValid(pool: Pool, c: Code)
    decreases c
  {
    (forall k | 0 <= k < |c.exceptionTable| :: HandlerValid(pool, |c.code|, c.exceptionTable[k])) &&
    (forall k | 0 <= k < |c.attributes| :: AttributeValid(pool, c.attributes[k]))
  }

  /** AttributeInfo.validate: the name slot holds a UTF8 entry, then the
      check of the branch the name selects. */
  predicate AttributeValid(pool: Pool, a: Attribute)
    decreases a
  {
    HasTag(pool, a.nameIndex, UTF8) && InfoValid(pool, a.length, a.info)
  }

  /** The per-name branches of AttributeInfo.validate. */
  predicate InfoValid(pool: Pool, length: int, info: Info)
    decreases info
  {
    match info
    case ConstantValue(i) =>
      HasTag(pool, i, INTEGER) || HasTag(pool, i, FLOAT) || HasTag(pool, i, LONG) ||
      HasTag(pool, i, DOUBLE) || HasTag(pool, i, STRING)
    case CodeAttr(c) => CodeValid(pool, c)
    case StackMapTable(fs) => forall k | 0 <= k < |fs| :: FrameValid(pool, fs[k])
    case Exceptions(xs) => AllTagged(pool, xs, CLASS)
    case InnerClasses(cs) => forall k | 0 <= k < |cs| :: InnerClassValid(pool, cs[k])
    case EnclosingMethod(c, m) => HasTag(pool, c, CLASS) && OptionalTag(pool, m, NAME_AND_TYPE)
    case Synthetic => length == 0
    case Signature(i) => HasTag(pool, i, UTF8)
    case SourceFile(i) => HasTag(pool, i, UTF8)
    case SourceDebugExtension(_) => true
    case LineNumberTable(_) => true
    case LocalVariableTable(vs) => forall k | 0 <= k < |vs| :: LocalVariableValid(pool, vs[k])
    case LocalVariableTypeTable(vs) => forall k | 0 <= k < |vs| :: LocalVariableTypeValid(pool, vs[k])
    case Deprecated => length == 0
    case Annotations(xs) => forall k | 0 <= k < |xs| :: AnnotationValid(pool, xs[k])
    case AnnotationDefault(v) => ElementValueValid(pool, v)
    case BootstrapMethods(ms) => forall k | 0 <= k < |ms| :: BootstrapMethodValid(pool, ms[k])
    case MethodParameters(ps) => forall k | 0 <= k < |ps| :: MethodParameterValid(pool, ps[k])
    case ModuleAttr(m) => ModuleValid(pool, m)
    case ModulePackages(xs) => AllTagged(pool, xs, PACKAGE)
    case ModuleMainClass(i) => HasTag(pool, i, CLASS)
    case NestHost(i) => HasTag(pool, i, CLASS)
    case NestMembers(xs) => AllTagged(pool, xs, CLASS)
    case Unknown(_) => true
  }

  /** Every attribute of the list passes (the attribute loops of Code,
      AbstractInfo and ClassInfo). */
  predicate AttributesValid(pool: Pool, attrs: seq<Attribute>)
  {
    forall k | 0 <= k < |attrs| :: AttributeValid(pool, attrs[k])
  }
}
