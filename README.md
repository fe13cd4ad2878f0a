# classinfo in Dafny

A model of the class-file decoder and validator of `org.classinfo`. It follows chapter 4 of the Java Virtual Machine Specification as this decoder reads it. It also models the descriptor and access-flag renderers in `Utils`.

The model has three layers:

- **Decoding.** A class file is a byte sequence (`seq<byte>`) read with an explicit cursor.
  - Each Java constructor that reads from the stream has a pure decoder `ParseX(b, p)`. It either fails with a `Failure` or returns the record and the position after it.
  - Beside each decoder is an imperative reader `ReadX(b, p)`. It reads the way the Java constructor does: it fills a `new T[n]` array in a loop and advances a position variable.
  - Each reader is proved to return what its decoder describes.
- **Validation.** The `validate()` methods are predicates over the decoded tree and the constant pool.
  - Every rule is one lookup, `HasTag(pool, i, t)`: slot `i` exists and holds an entry of tag `t`.
  - The lookup is false for index 0, for an index past the end, and for the empty slot after a LONG or DOUBLE. That is where the Java code fails on a null or an out-of-range index.
  - The two validation loops over arrays, `CPInfo.validate` and `ClassInfo.validate`, are methods proved equal to their predicates.
- **Rendering.** The `Utils` helpers are modelled separately:
  - the flag renderers append to a string builder one keyword at a time, as the Java does;
  - `expand` is a loop whose index jumps to the `;` of a class name;
  - each is proved equal to a declarative specification, and properties are proved about that specification.

Modules:

- `Bytes`: byte access, the `DataInputStream` reads, and counted sequences (`ParseSeq`, `ParseCounted`, and their loop readers).
- `ConstantPool`: the `CPInfo` entry decoder, `readConstantPool`, `validate` and `validateMethodHandle`.
- `Attributes`: the decoded attribute tree and the attribute names.
- `AttributeDecoding`: the attribute, `Code`, stack-map, annotation and Module decoders, which are mutually recursive.
- `AttributeReading`: the loop readers for those decoders.
- `AttributeValidation`: the `validate()` methods of `AttributeInfo`, its nested classes and `Code`.
- `AttributeProperties`: layout and validation properties of decoded attributes.
- `Members`: `AbstractInfo`, which covers both fields and methods.
- `ClassFile`: `ClassInfo(InputStream)` and `ClassInfo.validate`.
- `PrefixStability`: every decoder reads no further than it needs, so appending bytes changes no decoded result; hence a class file with anything appended is refused.
- `Text`, `AccessFlags`, `Descriptors`: `String.join`, `isSet` with the flag renderers, and `getSignature`/`expand`.

The model keeps the code's departures from the Java Virtual Machine Specification as they are:

- All six annotation attributes use the plain annotation layout. This includes the parameter and type-annotation variants.
- SourceDebugExtension is read as a u2-length-prefixed string.
- Known attributes never compare the bytes they consume with their declared length.
- The exception-table bounds use non-strict comparisons.

## Model

| member | source | states |
|---|---|---|
| Bytes.ParseU2 | src/main/java/org/classinfo/AbstractInfo.java:15 | readUnsignedShort: succeeds exactly when two bytes remain; the value is the big-endian u2 and the cursor moves by 2; otherwise the decode is truncated |
| Bytes.S4 | src/main/java/org/classinfo/AttributeInfo.java:67 | readInt: the signed 32-bit reading of four bytes; negative exactly when the top bit is set, and equal to the unsigned reading otherwise |
| Bytes.ParseUtf | src/main/java/org/classinfo/CPInfo.java:60 | readUTF: a u2 length and exactly that many bytes; fails if they are not all there |
| Bytes.ParseBytes | src/main/java/org/classinfo/AttributeInfo.java:176-179 | reading `n` raw bytes succeeds exactly when `n` bytes remain, and yields exactly those bytes |
| Bytes.ParseCounted | src/main/java/org/classinfo/AttributeInfo.java:82-85 | `new X[readUnsignedShort()]` filled in a loop: on success exactly u2-count elements, and the cursor never moves backwards or past the input |
| Bytes.ParseU2List | src/main/java/org/classinfo/AttributeInfo.java:82-85 | a u2-counted list of u2 indices takes exactly 2 + 2 * count bytes and element `i` is the big-endian u2 at offset 2 + 2 * i |
| Bytes.ReadSeq | src/main/java/org/classinfo/AttributeInfo.java:83-85 | the array-filling loop over `n` elements returns what the counted specification describes |
| Bytes.ReadCounted | src/main/java/org/classinfo/AttributeInfo.java:82-85 | the u2-counted array-filling loop returns what the counted specification describes |
| ConstantPool.ParseEntry | src/main/java/org/classinfo/CPInfo.java:55-107 | an entry decodes exactly when its tag is one of the 17 known tags and its payload is present; an unknown tag fails with BadTag; the entry keeps the tag read and consumes EntrySize bytes; its fields are the bytes after the tag: one or two u2 indices at p+1 and p+3, the u1 reference kind at p+1 then a u2 index at p+2, the 4 or 8 raw bytes of a numeric constant, and for UTF8 exactly the u2-counted run of bytes after the length |
| ConstantPool.FillPool | src/main/java/org/classinfo/CPInfo.java:112-118 | the filling loop never changes the number of slots |
| ConstantPool.ParsePool | src/main/java/org/classinfo/CPInfo.java:109-120 | the pool has exactly the u2 count of slots |
| ConstantPool.ReadConstantPool | src/main/java/org/classinfo/CPInfo.java:109-120 | the in-place loop, with its extra step after LONG/DOUBLE, returns exactly the specified pool and end position |
| ConstantPool.PoolShape | src/main/java/org/classinfo/CPInfo.java:109-120 | in a decoded pool, slot 0 is empty; a later slot is empty exactly when the slot before it holds a LONG or DOUBLE; the pool has `count` slots |
| ConstantPool.PoolSize | src/main/java/org/classinfo/CPInfo.java:109-120 | the pool's bytes are the u2 count plus the sizes of the entries in its occupied slots |
| ConstantPool.ValidatePool | src/main/java/org/classinfo/CPInfo.java:122-181 | the validation loop, skipping the slot after LONG/DOUBLE, returns true exactly when the pool is valid |
| ConstantPool.ValidFromAllOccupied | src/main/java/org/classinfo/CPInfo.java:122-181 | on a decoded pool, the walk with its skips is equivalent to checking the entry rule of every occupied slot from the starting slot on |
| ConstantPool.PoolValidAllOccupied | src/main/java/org/classinfo/CPInfo.java:122-181 | a decoded pool validates exactly when every occupied slot from 1 on satisfies its tag rule |
| ConstantPool.DanglingReference | src/main/java/org/classinfo/CPInfo.java:135-156 | a reference to slot 0, past the end, or to the slot after a LONG/DOUBLE has no tag, so STRING, CLASS and ref entries holding it are invalid |
| ConstantPool.EntryValidVersion | src/main/java/org/classinfo/CPInfo.java:199-211 | an entry valid at a major version below 52 is valid at every version |
| ConstantPool.PoolValidVersion | src/main/java/org/classinfo/CPInfo.java:199-211 | a pool valid at some major version below 52 is valid at every major version |
| ConstantPool.ValidFromSameSide | src/main/java/org/classinfo/CPInfo.java:199-211 | two major versions on the same side of 52 accept exactly the same pools |
| ConstantPool.InterfaceStaticHandleNeedsVersion52 | src/main/java/org/classinfo/CPInfo.java:199-211 | the relaxation is real: an invokeStatic handle to an interface method is rejected at version 51 and accepted at 52 |
| ConstantPool.HandleNameInValidPool | src/main/java/org/classinfo/CPInfo.java:183-240 | in a valid pool, a handle of kind 5-9 refers to a method or interface-method entry; the chain through its name-and-type entry ends in a UTF8 name; that name is "<init>" exactly for kind 8 and never "<clinit>" |
| AttributeDecoding.ParseVerificationType | src/main/java/org/classinfo/AttributeInfo.java:427-447 | decodes exactly when the tag is 0-8, with a u2 payload for tags 7 and 8; it keeps the tag; other tags fail with BadTag; tag 7 carries the pool index |
| AttributeDecoding.ParseFrame | src/main/java/org/classinfo/AttributeInfo.java:363-399 | a decoded frame keeps its frame type; types 128-246 fail with BadTag |
| AttributeDecoding.ParseInnerClass | src/main/java/org/classinfo/AttributeInfo.java:463-468 | exactly 8 bytes, as four u2 fields in order |
| AttributeDecoding.ParseLineNumber | src/main/java/org/classinfo/AttributeInfo.java:487-490 | exactly 4 bytes, as two u2 fields |
| AttributeDecoding.ParseLocalVariable | src/main/java/org/classinfo/AttributeInfo.java:500-506 | exactly 10 bytes: start pc, length, name index, descriptor index and slot index, as five u2 fields in order |
| AttributeDecoding.ParseLocalVariableType | src/main/java/org/classinfo/AttributeInfo.java:516-522 | exactly 10 bytes: start pc, length, name index, signature index and slot index, as five u2 fields in order |
| AttributeDecoding.ParseMethodParameter | src/main/java/org/classinfo/AttributeInfo.java:683-686 | exactly 4 bytes, as two u2 fields |
| AttributeDecoding.ParseRequires | src/main/java/org/classinfo/AttributeInfo.java:783-787 | exactly 6 bytes, as three u2 fields |
| AttributeDecoding.ParseHandler | src/main/java/org/classinfo/Code.java:63-68 | exactly 8 bytes, as four u2 fields in order |
| AttributeDecoding.ParseBootstrapMethod | src/main/java/org/classinfo/AttributeInfo.java:670-676 | decodes exactly when the method-handle index and the u2-counted argument list are present; the handle index is the first u2 and the arguments are exactly that counted list, after which decoding ends |
| AttributeDecoding.ParseExports | src/main/java/org/classinfo/AttributeInfo.java:795-802 | decodes exactly when the package index, the flags and the u2-counted target list are present; the index and the flags are the first two u2 and the targets are exactly that counted list |
| AttributeDecoding.ParseOpens | src/main/java/org/classinfo/AttributeInfo.java:810-817 | decodes exactly when the package index, the flags and the u2-counted target list are present; the index and the flags are the first two u2 and the targets are exactly that counted list |
| AttributeDecoding.ParseProvides | src/main/java/org/classinfo/AttributeInfo.java:824-830 | decodes exactly when the service index and the u2-counted implementation list are present; the index is the first u2 and the implementations are exactly that counted list |
| AttributeDecoding.ParseModule | src/main/java/org/classinfo/AttributeInfo.java:699-724 | the name, flags and version fields are the first three u2; then come the requires, exports and opens tables, the uses indices and the provides table, each u2-counted, each starting where the previous one ends, the last one ending where the Module body ends |
| AttributeDecoding.ParseElementValue | src/main/java/org/classinfo/AttributeInfo.java:574-607 | a decoded value keeps its tag, which is one of the 13 element tags; any other tag fails with BadTag |
| AttributeDecoding.ParseElementValues | src/main/java/org/classinfo/AttributeInfo.java:599-602 | an array value holds exactly its count of element values |
| AttributeDecoding.ParsePair | src/main/java/org/classinfo/AttributeInfo.java:558-561 | decodes exactly when the name index is present and an element value decodes after it; the pair holds that name index and exactly that element value, and ends where the value ends |
| AttributeDecoding.ParsePairs | src/main/java/org/classinfo/AttributeInfo.java:532-536 | an annotation holds exactly its count of pairs |
| AttributeDecoding.ParseAnnotation | src/main/java/org/classinfo/AttributeInfo.java:531-538 | decodes exactly when the type index and the pair count are present and that many pairs decode after them; the annotation holds the type index and exactly those pairs, and ends where they end |
| AttributeDecoding.AttributeName | src/main/java/org/classinfo/AttributeInfo.java:66 | the dispatch string exists exactly when the name index names a UTF8 entry |
| AttributeDecoding.ParseAttribute | src/main/java/org/classinfo/AttributeInfo.java:63-68 | a decoded attribute has a 6-byte header: a name index naming a UTF8 entry and the signed 32-bit length; its body is what the name dispatch decodes after the header for that name and length; a name index that does not name a UTF8 entry fails with BadReference |
| AttributeDecoding.ParseAttributes | src/main/java/org/classinfo/Code.java:31-34 | exactly `n` attributes |
| AttributeDecoding.ParseCode | src/main/java/org/classinfo/Code.java:14-35 | decodes only when the code length is in 1..65535 and that many code bytes follow; the code is exactly those bytes; a length outside the range fails with BadLength |
| AttributeDecoding.ParseInfo | src/main/java/org/classinfo/AttributeInfo.java:68-181 | an unknown name reads exactly `length` opaque bytes; it fails when the length is negative or the bytes are missing |
| AttributeDecoding.ParseLaterInfo | src/main/java/org/classinfo/AttributeInfo.java:128-181 | the second half of the name dispatch, with the same rule for unknown names |
| AttributeReading.ReadFrame | src/main/java/org/classinfo/AttributeInfo.java:363-399 | the StackMapFrame constructor with its locals and stack loops returns what ParseFrame describes |
| AttributeReading.ReadStackMapTable | src/main/java/org/classinfo/AttributeInfo.java:75-80 | the frame-filling loop returns the counted sequence of frames |
| AttributeReading.ReadBootstrapMethod | src/main/java/org/classinfo/AttributeInfo.java:670-676 | equals ParseBootstrapMethod |
| AttributeReading.ReadBootstrapMethods | src/main/java/org/classinfo/AttributeInfo.java:142-147 | the loop returns the counted sequence of bootstrap methods |
| AttributeReading.ReadExports | src/main/java/org/classinfo/AttributeInfo.java:795-802 | equals ParseExports |
| AttributeReading.ReadOpens | src/main/java/org/classinfo/AttributeInfo.java:810-817 | equals ParseOpens |
| AttributeReading.ReadProvides | src/main/java/org/classinfo/AttributeInfo.java:824-830 | equals ParseProvides |
| AttributeReading.ReadExportsTable | src/main/java/org/classinfo/AttributeInfo.java:707-711 | the exports loop returns the counted sequence |
| AttributeReading.ReadOpensTable | src/main/java/org/classinfo/AttributeInfo.java:712-715 | the opens loop returns the counted sequence |
| AttributeReading.ReadProvidesTable | src/main/java/org/classinfo/AttributeInfo.java:720-723 | the provides loop returns the counted sequence |
| AttributeReading.ReadModule | src/main/java/org/classinfo/AttributeInfo.java:699-724 | the Module constructor returns what ParseModule describes |
| AttributeReading.ReadElementValue | src/main/java/org/classinfo/AttributeInfo.java:574-607 | the ElementValue constructor returns what ParseElementValue describes |
| AttributeReading.ReadElementValues | src/main/java/org/classinfo/AttributeInfo.java:599-602 | the values loop returns ParseElementValues |
| AttributeReading.ReadPair | src/main/java/org/classinfo/AttributeInfo.java:558-561 | equals ParsePair |
| AttributeReading.ReadPairs | src/main/java/org/classinfo/AttributeInfo.java:532-536 | the pairs loop returns ParsePairs |
| AttributeReading.ReadAnnotation | src/main/java/org/classinfo/AttributeInfo.java:531-538 | equals ParseAnnotation |
| AttributeReading.ReadAnnotations | src/main/java/org/classinfo/AttributeInfo.java:134-137 | the annotations loop returns the counted sequence |
| AttributeReading.ReadAttribute | src/main/java/org/classinfo/AttributeInfo.java:63-68 | the AttributeInfo constructor returns what ParseAttribute describes |
| AttributeReading.ReadAttributes | src/main/java/org/classinfo/Code.java:31-34 | the attributes loop returns ParseAttributes |
| AttributeReading.ReadCode | src/main/java/org/classinfo/Code.java:14-35 | the Code constructor returns what ParseCode describes |
| AttributeReading.ReadInfo | src/main/java/org/classinfo/AttributeInfo.java:68-181 | the name switch of the constructor returns what ParseInfo describes |
| AttributeReading.ReadLaterInfo | src/main/java/org/classinfo/AttributeInfo.java:128-181 | the second half of the switch returns ParseLaterInfo |
| AttributeProperties.DecodedFrameShape | src/main/java/org/classinfo/AttributeInfo.java:363-399 | each frame-type range decodes as follows; 0-63: offset = type, no payload; 64-127: offset = type-64, one stack item; 247: u2 offset and one stack item; 248-251: u2 offset only, 3 bytes; 252-254: u2 offset and type-251 locals; 255: a full frame whose u2-counted locals are followed by an independently u2-counted stack, which ends the frame; 128-246: never decode |
| AttributeProperties.DecodedElementValueShape | src/main/java/org/classinfo/AttributeInfo.java:574-607 | per tag: the constant tags read one index (3 bytes), `e` reads two (5 bytes), `c` reads one, `@` reads a nested annotation, and `[` reads exactly u2-count values |
| AttributeProperties.UnknownAttribute | src/main/java/org/classinfo/AttributeInfo.java:175-180 | an unknown name decodes exactly when its length is non-negative and that many bytes follow the header; it ends exactly there and always validates |
| AttributeProperties.KnownNameIgnoresLength | src/main/java/org/classinfo/AttributeInfo.java:68-174 | for a known name the declared length changes neither what is decoded nor where decoding stops |
| AttributeProperties.MarkerAttributes | src/main/java/org/classinfo/AttributeInfo.java:234-281 | Synthetic (validated at lines 234-238) and Deprecated (lines 277-281) consume only the header and validate exactly when their declared length is 0 |
| AttributeProperties.SingleIndexAttributes | src/main/java/org/classinfo/AttributeInfo.java:194-333 | the one-index attributes take 2 bytes; ConstantValue (lines 194-205) validates exactly when its index names an INTEGER, FLOAT, LONG, DOUBLE or STRING entry; Signature and SourceFile (239-248) exactly when it names a UTF8 entry; ModuleMainClass and NestHost (324-333) exactly when it names a CLASS entry |
| AttributeProperties.UncheckedAttributes | src/main/java/org/classinfo/AttributeInfo.java:249-256 | a decoded LineNumberTable or SourceDebugExtension always validates |
| AttributeProperties.CodeLayout | src/main/java/org/classinfo/Code.java:14-35 | a decoded Code body is laid out as follows; max_stack and max_locals come first; exactly `length` code bytes follow; then the exception table: u2-count entries of 8 bytes; then the nested attributes, ending where the body ends |
| AttributeProperties.HandlerBoundsInclusive | src/main/java/org/classinfo/Code.java:39-47 | the bounds are inclusive: end = start = handler = code length passes; one past the end, or start > end, fails |
| AttributeProperties.CodeValidOnlyLength | src/main/java/org/classinfo/Code.java:37-55 | whether a Code body validates depends on its code bytes only through their number: replacing them with any bytes of the same length changes nothing |
| AttributeProperties.CodeValidExtend | src/main/java/org/classinfo/Code.java:37-55 | one more exception handler, or one more nested attribute, keeps a body valid exactly when the body was valid and the new handler or attribute passes its own check; so a single bad one rejects the whole body |
| AttributeProperties.FixedWidthTables | src/main/java/org/classinfo/AttributeInfo.java:81-125 | Exceptions, InnerClasses, LineNumberTable and LocalVariableTable take 2 + count*2, *8, *4 and *10 bytes |
| Members.ParseMember | src/main/java/org/classinfo/AbstractInfo.java:14-24 | a member: flags, name and descriptor indices, a u2 count, then exactly that many attributes starting 8 bytes in; an attribute failure is the member's failure |
| Members.ReadMember | src/main/java/org/classinfo/AbstractInfo.java:14-24 | the AbstractInfo constructor with its attributes loop returns what ParseMember describes |
| Members.ReadMembers | src/main/java/org/classinfo/ClassInfo.java:41-50 | the fields or methods loop returns the counted sequence of members |
| Members.FieldsAndMethodsAgree | src/main/java/org/classinfo/FieldInfo.java:8-10 | the same bytes decode to a field and to a method alike, with the same failure or the same record apart from its kind, and the two validate alike |
| ClassFile.ParseClass | src/main/java/org/classinfo/ClassInfo.java:24-60 | fewer than 4 bytes is truncated; a wrong magic fails with BadMagic; a decoded class carries the minor and major versions from bytes 4-7 and the pool decoded at byte 8; a pool failure is the class's failure |
| ClassFile.ParseClassBody | src/main/java/org/classinfo/ClassInfo.java:33-58 | the rest of the class carries the versions and the pool it was given |
| ClassFile.ReadClass | src/main/java/org/classinfo/ClassInfo.java:24-60 | the constructor returns what ParseClass describes |
| ClassFile.ReadClassBody | src/main/java/org/classinfo/ClassInfo.java:33-58 | the reads and loops after the pool return what ParseClassBody describes |
| ClassFile.ClassLayout | src/main/java/org/classinfo/ClassInfo.java:24-60 | a decoded class has a pool of exactly `count` slots shaped as readConstantPool builds it, and the class body is read from where the pool ends |
| ClassFile.BodyLayout | src/main/java/org/classinfo/ClassInfo.java:33-58 | flags, this and super come in order, then the u2-counted interfaces, fields, methods and attributes, each starting where the previous ends; the attributes end exactly at the end of the input |
| ClassFile.BodyEndsEarly | src/main/java/org/classinfo/ClassInfo.java:36-58 | a class body whose interfaces, fields, methods and attributes all decode, but whose attributes end before the end of the input, fails with TrailingData |
| ClassFile.MemberKinds | src/main/java/org/classinfo/ClassInfo.java:41-50 | every decoded field is a field and every decoded method is a method |
| ClassFile.ValidateClass | src/main/java/org/classinfo/ClassInfo.java:66-88 | the ordered checks return true exactly when the class is valid |
| ClassFile.ClassValidVersion | src/main/java/org/classinfo/ClassInfo.java:67 | a class valid at a major version below 52 stays valid at any major version |
| ClassFile.ValidClassPool | src/main/java/org/classinfo/ClassInfo.java:67 | in a valid class with a decoded pool, every occupied slot passes its entry rule at the class's major version |
| PrefixStability.PoolStable | src/main/java/org/classinfo/CPInfo.java:109-120 | a constant pool that decodes from some bytes decodes identically when more bytes follow: readConstantPool reads no further than it needs |
| PrefixStability.AttributesStable | src/main/java/org/classinfo/AttributeInfo.java:63-181 | a run of attributes, including every nested Code, stack-map, annotation and Module body, decodes identically when more bytes follow |
| PrefixStability.BodyTrailingData | src/main/java/org/classinfo/ClassInfo.java:33-58 | a class body that decodes refuses the same bytes with anything appended, with TrailingData |
| PrefixStability.ClassTrailingData | src/main/java/org/classinfo/ClassInfo.java:56-58 | a class file that decodes is refused with TrailingData once any non-empty run of bytes is appended to it |
| Text.Join | src/main/java/org/classinfo/Utils.java:201 | String.join: empty for no strings, the string itself for one |
| Text.JoinAppend | src/main/java/org/classinfo/Utils.java:201 | joining two non-empty lists is the join of the first, one separator, and the join of the second |
| Text.JoinLength | src/main/java/org/classinfo/Utils.java:201 | a join of a non-empty list is as long as all its strings together plus one separator for each consecutive pair |
| AccessFlags.IsSetBits | src/main/java/org/classinfo/Utils.java:28-30 | isSet holds exactly when every bit of the filter is set in the flags |
| AccessFlags.AppendIfSet | src/main/java/org/classinfo/Utils.java:34-36 | one `if (isSet) sb.append(" word")` step extends the builder by exactly the next entry of the keyword table |
| AccessFlags.Finish | src/main/java/org/classinfo/Utils.java:61 | `substring(1)` of the finished builder gives the space-joined keywords, and fails when no keyword was appended |
| AccessFlags.GetClassFlags | src/main/java/org/classinfo/Utils.java:32-62 | returns exactly the keywords of the set class bits, space-separated, in the order public, final, super, interface, abstract, synthetic, annotation, enum, module; none if no bit is set |
| AccessFlags.GetFieldFlags | src/main/java/org/classinfo/Utils.java:64-97 | returns exactly the keywords of the set field bits, space-separated, in the order public, private, protected, static, final, volatile, transient, abstract, synthetic, enum; none if no bit is set |
| AccessFlags.GetMethodFlags | src/main/java/org/classinfo/Utils.java:99-138 | returns exactly the keywords of the set method bits, space-separated, in the order public, private, protected, static, final, synchronized, bridge, varargs, native, abstract, strict, synthetic; none if no bit is set |
| AccessFlags.FlagWordsExactly | src/main/java/org/classinfo/Utils.java:99-138 | a keyword is emitted exactly when some entry with that keyword has its bit set |
| AccessFlags.FlagWordsOrdered | src/main/java/org/classinfo/Utils.java:99-138 | two set entries are emitted in table order |
| AccessFlags.NoKeywords | src/main/java/org/classinfo/Utils.java:137 | nothing is emitted exactly when none of the renderer's bits is set, which is when `substring(1)` fails |
| AccessFlags.KeywordListed | src/main/java/org/classinfo/Utils.java:99-138 | a keyword that appears once in the table is emitted exactly when its bit is set |
| AccessFlags.SharedBit20 | src/main/java/org/classinfo/Utils.java:13-14 | bit 0x0020 reads as super for a class and synchronized for a method |
| AccessFlags.SharedBit40 | src/main/java/org/classinfo/Utils.java:15-16 | bit 0x0040 reads as volatile for a field and bridge for a method |
| AccessFlags.SharedBit80 | src/main/java/org/classinfo/Utils.java:17-18 | bit 0x0080 reads as transient for a field and varargs for a method |
| Descriptors.IndexOf | src/main/java/org/classinfo/Utils.java:162 | String.indexOf: the first occurrence at or after `from`, or none when there is no occurrence |
| Descriptors.Dotted | src/main/java/org/classinfo/Utils.java:163 | replace('/', '.') keeps the length |
| Descriptors.Expand | src/main/java/org/classinfo/Utils.java:151-202 | the loop over the descriptor, with its index jump to `;`, its pending brackets and its list, returns the specified expansion |
| Descriptors.GetSignature | src/main/java/org/classinfo/Utils.java:140-149 | an empty descriptor fails; a descriptor not starting with `(` gives its expansion, a space and the name, and fails exactly when the expansion fails; `(` with no `)` fails |
| Descriptors.ExpandOne | src/main/java/org/classinfo/Utils.java:158-199 | the encoding of one field type expands to its rendering with the pending brackets appended; the scan then goes on after it |
| Descriptors.ExpandObject | src/main/java/org/classinfo/Utils.java:161-165 | `L<name>;` expands to the dotted name followed by the pending brackets |
| Descriptors.ExpandMany | src/main/java/org/classinfo/Utils.java:154-200 | the encodings of several field types expand to their renderings in order |
| Descriptors.ExpandEncoded | src/main/java/org/classinfo/Utils.java:151-202 | expanding the encoding of any list of well-formed types gives their renderings joined by ", " |
| Descriptors.TrailingBracketDropped | src/main/java/org/classinfo/Utils.java:196-199 | a trailing `[` with nothing after it adds nothing to the expansion |
| Descriptors.InvalidCharacter | src/main/java/org/classinfo/Utils.java:193-194 | a character that is not `[`, `L` or a base type makes the expansion fail |
| Descriptors.UnterminatedClassName | src/main/java/org/classinfo/Utils.java:161-165 | an `L` with no later `;` makes the expansion fail |
| Descriptors.FailurePropagates | src/main/java/org/classinfo/Utils.java:161-165 | a failure after a class name makes the whole expansion fail |
| Descriptors.FieldSignature | src/main/java/org/classinfo/Utils.java:141-143 | a field descriptor gives the type's rendering, a space and the name |
| Descriptors.MethodSignature | src/main/java/org/classinfo/Utils.java:144-147 | `(P)R` gives the rendering of R, a space, the name, and the renderings of P in parentheses joined by ", " |

## Left out

- Streams are not modelled: the input is a byte sequence, and every read checks that enough bytes remain.
  - This covers `InputStream`, `DataInputStream` and try-with-resources.
  - `ClassInfo(Class)` and its resource lookup (src/main/java/org/classinfo/ClassInfo.java:20-22) are not part of this model.
- Short reads by `DataInputStream.read(byte[])` (src/main/java/org/classinfo/AttributeInfo.java:177, Code.java:23) are not modelled. A raw block either is fully present or fails as truncated.
- Modified UTF-8 is not decoded. `readUTF` is a u2-prefixed byte run, and attribute names are compared with their ASCII bytes. This has two consequences:
  - a malformed encoding is accepted where Java would throw;
  - an overlong encoding that Java decodes to the same `String` compares unequal in the model. For example, `C0 BC` decodes to `<`, and "Code" can be written with a padded letter. Such a name is an unknown attribute in the model and not a `Code` attribute, and an overlong `<init>` or `<clinit>` escapes the method-handle name rule.
- Float and double constants keep their raw 4 or 8 bytes. No floating-point value is computed.
- The `toString` methods are outside the model:
  - the `toString` of CPInfo, ClassInfo, AbstractInfo and AttributeInfo;
  - FieldInfo and MethodInfo as classes (a kind tag on the member stands for them);
  - `ClassInfo.getClassName`.
  - `CPInfo.toString` follows pool references with no termination guarantee.
- Java's exception kinds are collapsed. A decoding error is one `Failure` value, and a validation error is `false`. The renderers return `None` wherever Java throws.
- The Java validation walks stop at the first violation, so they report which violation came first. The boolean model cannot observe that.
  - This covers the rule that Code's nested attributes are checked only after the whole exception table.
  - `AttributeInfo.validate`, its nested `validate` methods, `Code.validate` and `AbstractInfo.validate` are predicates and not loop methods, for the same reason.
- Allocating very large arrays (a huge declared length) is unbounded in the model. Java may run out of memory in that case.
- AccessFlags.GetClassFlags, AccessFlags.GetFieldFlags, AccessFlags.GetMethodFlags: the `int` flag argument is a 16-bit value. Access flags come from `readUnsignedShort`, and every mask the renderers check is below 0x10000, so the higher bits never affect the result.
- Descriptors.MethodSignature: stated only for parameter encodings without a `)`. `getSignature` splits at the first `)`, and `GetSignature` models that split as written. A class name that contains `)` is therefore split inside the name, and the lemma does not describe that case.
- Descriptors.GetSignature: characters are plain `char` values with no Unicode handling, the same as Java's `charAt`.
