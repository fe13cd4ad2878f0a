/**
 * The decoded attribute tree (section 4.7 of the Java Virtual Machine
 * Specification, as this decoder reads it): attributes, Code bodies,
 * stack-map frames, annotations and element values, the Module descriptor
 * and the small fixed-width tables.
 *
 * Every record keeps the raw u2 pool indices it read; validation resolves
 * them against the constant pool afterwards.
 */
module Attributes {
  import opened Bytes

  /** verification_type_info: tags 0-6 carry nothing, 7 a pool index, 8 a
      code offset. */
  datatype VerificationType =
    | TopItem
    | IntegerItem
    | FloatItem
    | DoubleItem
    | LongItem
    | NullItem
    | UninitializedThisItem
    | ObjectItem(cpoolIndex: u16)
    | UninitializedItem(offset: u16)

  /** The tag byte a verification type is encoded with. */
  function ItemTag(v: VerificationType): u8
  {
    match v
    case TopItem => 0
    case IntegerItem => 1
    case FloatItem => 2
    case DoubleItem => 3
    case LongItem => 4
    case NullItem => 5
    case UninitializedThisItem => 6
    case ObjectItem(_) => 7
    case UninitializedItem(_) => 8
  }

  const SAME_MAX: u8 := 63
  const SAME_LOCALS_1_STACK_ITEM_MIN: u8 := 64
  const SAME_LOCALS_1_STACK_ITEM_MAX: u8 := 127
  const SAME_LOCALS_1_STACK_ITEM_EXTENDED: u8 := 247
  const CHOP_MIN: u8 := 248
  const CHOP_MAX: u8 := 250
  const SAME_FRAME_EXTENDED: u8 := 251
  const APPEND_MIN: u8 := 252
  const APPEND_MAX: u8 := 254
  const FULL_FRAME: u8 := 255

  /** stack_map_frame. The frame type is implied by the variant and its
      fields, except for a chop frame, which keeps it. */
  datatype StackMapFrame =
    | SameFrame(offsetDelta: u16)
    | SameLocals1StackItem(offsetDelta: u16, stackItem: VerificationType)
    | SameLocals1StackItemExtended(offsetDelta: u16, stackItem: VerificationType)
    | ChopFrame(frameType: u8, offsetDelta: u16)
    | SameFrameExtended(offsetDelta: u16)
    | AppendFrame(offsetDelta: u16, locals: seq<VerificationType>)
    | FullFrame(offsetDelta: u16, locals: seq<VerificationType>, stack: seq<VerificationType>)

  /** The frame type byte the frame was decoded from. */
  function FrameType(f: StackMapFrame): int
  {
    match f
    case SameFrame(d) => d
    case SameLocals1StackItem(d, _) => d + 64
    case SameLocals1StackItemExtended(_, _) => 247
    case ChopFrame(t, _) => t
    case SameFrameExtended(_) => 251
    case AppendFrame(_, ls) => 251 + |ls|
    case FullFrame(_, _, _) => 255
  }

  /** The operand-stack entries of a frame (empty for the frames that carry
      none). */
  function Stack(f: StackMapFrame): seq<VerificationType>
  {
    match f
    case SameLocals1StackItem(_, v) => [v]
    case SameLocals1StackItemExtended(_, v) => [v]
    case FullFrame(_, _, st) => st
    case _ => []
  }

  /** The local-variable entries of a frame (absent, so empty, for the frames
      that carry none). */
  function Locals(f: StackMapFrame): seq<VerificationType>
  {
    match f
    case AppendFrame(_, ls) => ls
    case FullFrame(_, ls, _) => ls
    case _ => []
  }

  datatype InnerClass = InnerClass(innerClassInfoIndex: u16, outerClassInfoIndex: u16,
                                   innerNameIndex: u16, innerClassAccessFlags: u16)

  datatype LineNumber = LineNumber(startPc: u16, lineNumber: u16)

  datatype LocalVariable = LocalVariable(startPc: u16, length: u16, nameIndex: u16,
                                         descriptorIndex: u16, index: u16)

  datatype LocalVariableType = LocalVariableType(startPc: u16, length: u16, nameIndex: u16,
                                                 signatureIndex: u16, index: u16)

  datatype BootstrapMethod = BootstrapMethod(bootstrapMethodRef: u16, bootstrapArguments: seq<u16>)

  datatype MethodParameter = MethodParameter(nameIndex: u16, accessFlags: u16)

  datatype Requires = Requires(requiresIndex: u16, requiresFlags: u16, requiresVersionIndex: u16)

  datatype Exports = Exports(exportsIndex: u16, exportsFlags: u16, exportsToIndex: seq<u16>)

  datatype Opens = Opens(opensIndex: u16, opensFlags: u16, opensToIndex: seq<u16>)

  datatype Provides = Provides(providesIndex: u16, providesWithIndex: seq<u16>)

  /** The body of a Module attribute. */
  datatype ModuleDescriptor = ModuleDescriptor(
    moduleNameIndex: u16, moduleFlags: u16, moduleVersionIndex: u16,
    requiresTable: seq<Requires>, exportsTable: seq<Exports>, opensTable: seq<Opens>,
    usesIndex: seq<u16>, providesTable: seq<Provides>)

  // Element-value tags, as the bytes of their ASCII characters.
  const TAG_BYTE: u8 := 'B' as int
  const TAG_CHAR: u8 := 'C' as int
  const TAG_DOUBLE: u8 := 'D' as int
  const TAG_FLOAT: u8 := 'F' as int
  const TAG_INT: u8 := 'I' as int
  const TAG_LONG: u8 := 'J' as int
  const TAG_SHORT: u8 := 'S' as int
  const TAG_BOOLEAN: u8 := 'Z' as int
  const TAG_STRING: u8 := 's' as int
  const TAG_ENUM: u8 := 'e' as int
  const TAG_CLASS: u8 := 'c' as int
  const TAG_ANNOTATION: u8 := '@' as int
  const TAG_ARRAY: u8 := '[' as int

  /** The tags whose element value is a single constant-pool index. */
  predicate IsConstTag(t: int)
  {
    t == TAG_BYTE || t == TAG_CHAR || t == TAG_DOUBLE || t == TAG_FLOAT || t == TAG_INT ||
    t == TAG_LONG || t == TAG_SHORT || t == TAG_BOOLEAN || t == TAG_STRING
  }

  /** The tags the element-value decoder accepts. */
  predicate IsElementTag(t: int)
  {
    IsConstTag(t) || t == TAG_ENUM || t == TAG_CLASS || t == TAG_ANNOTATION || t == TAG_ARRAY
  }

  /** element_value and annotation, mutually recursive. */
  datatype ElementValue =
    | ConstValue(tag: u8, constValueIndex: u16)
    | EnumValue(typeNameIndex: u16, constNameIndex: u16)
    | ClassValue(classInfoIndex: u16)
    | AnnotationValue(annotation: Annotation)
    | ArrayValue(values: seq<ElementValue>)

  datatype ElementValuePair = ElementValuePair(elementNameIndex: u16, value: ElementValue)

  datatype Annotation = Annotation(typeIndex: u16, pairs: seq<ElementValuePair>)

  /** The tag byte an element value is encoded with. */
  function ElementTag(v: ElementValue): u8
  {
    match v
    case ConstValue(t, _) => t
    case EnumValue(_, _) => TAG_ENUM
    case ClassValue(_) => TAG_CLASS
    case AnnotationValue(_) => TAG_ANNOTATION
    case ArrayValue(_) => TAG_ARRAY
  }

  /** One exception_table entry of a Code attribute. */
  datatype ExceptionHandler = ExceptionHandler(startPc: u16, endPc: u16, handlerPc: u16, catchType: u16)

  /** The body of a Code attribute, which owns attributes of its own. */
  datatype Code = Code(maxStack: u16, maxLocals: u16, code: seq<byte>,
                       exceptionTable: seq<ExceptionHandler>, attributes: seq<Attribute>)

  /** An attribute: the u2 name index, the signed 32-bit declared length and
      the body selected by the name. */
  datatype Attribute = Attribute(nameIndex: u16, length: int, info: Info)

  /** The attribute body, one variant per attribute name the decoder knows,
      and the opaque bytes of any other name. The six annotation attributes
      share one variant, because they are all read with the plain annotation
      layout. */
  datatype Info =
    | ConstantValue(constantValueIndex: u16)
    | CodeAttr(body: Code)
    | StackMapTable(entries: seq<StackMapFrame>)
    | Exceptions(exceptionIndexTable: seq<u16>)
    | InnerClasses(classes: seq<InnerClass>)
    | EnclosingMethod(classIndex: u16, methodIndex: u16)
    | Synthetic
    | Signature(signatureIndex: u16)
    | SourceFile(sourceFileIndex: u16)
    | SourceDebugExtension(debugExtension: seq<byte>)
    | LineNumberTable(lineNumbers: seq<LineNumber>)
    | LocalVariableTable(localVariables: seq<LocalVariable>)
    | LocalVariableTypeTable(localVariableTypes: seq<LocalVariableType>)
    | Deprecated
    | Annotations(annotations: seq<Annotation>)
    | AnnotationDefault(defaultValue: ElementValue)
    | BootstrapMethods(methods: seq<BootstrapMethod>)
    | MethodParameters(parameters: seq<MethodParameter>)
    | ModuleAttr(descriptor: ModuleDescriptor)
    | ModulePackages(packageIndex: seq<u16>)
    | ModuleMainClass(mainClassIndex: u16)
    | NestHost(hostClassIndex: u16)
    | NestMembers(members: seq<u16>)
    | Unknown(bytes: seq<byte>)

  // The attribute names the decoder dispatches on.
  const CONSTANT_VALUE := Ascii("ConstantValue")
  const CODE := Ascii("Code")
  const STACK_MAP_TABLE := Ascii("StackMapTable")
  const EXCEPTIONS := Ascii("Exceptions")
  const INNER_CLASSES := Ascii("InnerClasses")
  const ENCLOSING_METHOD := Ascii("EnclosingMethod")
  const SYNTHETIC := Ascii("Synthetic")
  const SIGNATURE := Ascii("Signature")
  const SOURCE_FILE := Ascii("SourceFile")
  const SOURCE_DEBUG_EXTENSION := Ascii("SourceDebugExtension")
  const LINE_NUMBER_TABLE := Ascii("LineNumberTable")
  const LOCAL_VARIABLE_TABLE := Ascii("LocalVariableTable")
  const LOCAL_VARIABLE_TYPE_TABLE := Ascii("LocalVariableTypeTable")
  const DEPRECATED := Ascii("Deprecated")
  const RUNTIME_VISIBLE_ANNOTATIONS := Ascii("RuntimeVisibleAnnotations")
  const RUNTIME_INVISIBLE_ANNOTATIONS := Ascii("RuntimeInvisibleAnnotations")
  const RUNTIME_VISIBLE_PARAMETER_ANNOTATIONS := Ascii("RuntimeVisibleParameterAnnotations")
  const RUNTIME_INVISIBLE_PARAMETER_ANNOTATIONS := Ascii("RuntimeInvisibleParameterAnnotations")
  const RUNTIME_VISIBLE_TYPE_ANNOTATIONS := Ascii("RuntimeVisibleTypeAnnotations")
  const RUNTIME_INVISIBLE_TYPE_ANNOTATIONS := Ascii("RuntimeInvisibleTypeAnnotations")
  const ANNOTATION_DEFAULT := Ascii("AnnotationDefault")
  const BOOTSTRAP_METHODS := Ascii("BootstrapMethods")
  const METHOD_PARAMETERS := Ascii("MethodParameters")
  const MODULE_ATTRIBUTE := Ascii("Module")
  const MODULE_PACKAGES := Ascii("ModulePackages")
  const MODULE_MAIN_CLASS := Ascii("ModuleMainClass")
  const NEST_HOST := Ascii("NestHost")
  const NEST_MEMBERS := Ascii("NestMembers")

  predicate IsAnnotationsName(name: seq<byte>)
  {
    name == RUNTIME_VISIBLE_ANNOTATIONS || name == RUNTIME_INVISIBLE_ANNOTATIONS ||
    name == RUNTIME_VISIBLE_PARAMETER_ANNOTATIONS || name == RUNTIME_INVISIBLE_PARAMETER_ANNOTATIONS ||
    name == RUNTIME_VISIBLE_TYPE_ANNOTATIONS || name == RUNTIME_INVISIBLE_TYPE_ANNOTATIONS
  }

  /** The names with a layout of their own; any other name is opaque. */
  predicate IsKnownName(name: seq<byte>)
  {
    name == CONSTANT_VALUE || name == CODE || name == STACK_MAP_TABLE || name == EXCEPTIONS ||
    name == INNER_CLASSES || name == ENCLOSING_METHOD || name == SYNTHETIC || name == SIGNATURE ||
    name == SOURCE_FILE || name == SOURCE_DEBUG_EXTENSION || name == LINE_NUMBER_TABLE ||
    name == LOCAL_VARIABLE_TABLE || name == LOCAL_VARIABLE_TYPE_TABLE || name == DEPRECATED ||
    IsAnnotationsName(name) || name == ANNOTATION_DEFAULT || name == BOOTSTRAP_METHODS ||
    name == METHOD_PARAMETERS || name == MODULE_ATTRIBUTE || name == MODULE_PACKAGES ||
    name == MODULE_MAIN_CLASS || name == NEST_HOST || name == NEST_MEMBERS
  }
}
