/**
 * The code-text generators of js/src/jit/GenerateCacheIRFiles.py: for each
 * CacheIR op described in CacheIROps.yaml, the CacheIRWriter method, the
 * CacheIRCompiler (and transpiler) signature with its forwarding reader
 * method, the spewer method and the stub-cloning method, each as the text
 * of a C++ macro body; and the per-op loop that files these texts into the
 * shared, unshared and transpiler lists.
 *
 * An op's arguments are an ordered list of (name, type) pairs, the order
 * of the YAML mapping; an op without arguments has the empty list.  Loading
 * and preprocessing the YAML file and writing the header are not modelled.
 */
module CacheIRGen {
  import opened Wrappers
  import opened Numerals

  /** Operand ids: read back as `...Id` variables. */
  datatype IdType =
    | ValId | ObjId | StringId | SymbolId | BooleanId | Int32Id | NumberId | BigIntId
    | ValueTagId | IntPtrId | RawId

  /** Stub fields: read back as `...Offset` variables, a 32-bit offset into the stub data. */
  datatype FieldType =
    | ShapeField | GetterSetterField | ObjectField | StringField | AtomField | PropertyNameField
    | SymbolField | BaseScriptField | RawInt32Field | RawPointerField | IdField | ValueField
    | RawInt64Field

  /** Immediates: read back under their own name. */
  datatype ImmType =
    | JSOpImm | BoolImm | ByteImm | GuardClassKindImm | ValueTypeImm | JSWhyMagicImm
    | CallFlagsImm | ScalarTypeImm | UnaryMathFunctionImm | WasmValTypeImm | Int32Imm | UInt32Imm
    | JSNativeImm | StaticStringImm | AllocKindImm

  /** The argument types an op may declare, in the three groups the generator's tables treat alike. */
  datatype ArgType = Id(id: IdType) | Field(field: FieldType) | Imm(imm: ImmType)

  /** An argument: its name in the YAML file and its type. */
  type Arg = (string, ArgType)

  /** The line continuation that ends every line of a macro body: a backslash and a newline. */
  const LT: string := "\\\n"

  /** The type's name as the YAML file spells it. */
  function TypeName(t: ArgType): string
  {
    match t
    case Id(k) => IdTypeName(k)
    case Field(k) => FieldTypeName(k)
    case Imm(k) => ImmTypeName(k)
  }

  function IdTypeName(k: IdType): string
  {
    match k
    case ValId => "ValId"
    case ObjId => "ObjId"
    case StringId => "StringId"
    case SymbolId => "SymbolId"
    case BooleanId => "BooleanId"
    case Int32Id => "Int32Id"
    case NumberId => "NumberId"
    case BigIntId => "BigIntId"
    case ValueTagId => "ValueTagId"
    case IntPtrId => "IntPtrId"
    case RawId => "RawId"
  }

  function FieldTypeName(k: FieldType): string
  {
    match k
    case ShapeField => "ShapeField"
    case GetterSetterField => "GetterSetterField"
    case ObjectField => "ObjectField"
    case StringField => "StringField"
    case AtomField => "AtomField"
    case PropertyNameField => "PropertyNameField"
    case SymbolField => "SymbolField"
    case BaseScriptField => "BaseScriptField"
    case RawInt32Field => "RawInt32Field"
    case RawPointerField => "RawPointerField"
    case IdField => "IdField"
    case ValueField => "ValueField"
    case RawInt64Field => "RawInt64Field"
  }

  function ImmTypeName(k: ImmType): string
  {
    match k
    case JSOpImm => "JSOpImm"
    case BoolImm => "BoolImm"
    case ByteImm => "ByteImm"
    case GuardClassKindImm => "GuardClassKindImm"
    case ValueTypeImm => "ValueTypeImm"
    case JSWhyMagicImm => "JSWhyMagicImm"
    case CallFlagsImm => "CallFlagsImm"
    case ScalarTypeImm => "ScalarTypeImm"
    case UnaryMathFunctionImm => "UnaryMathFunctionImm"
    case WasmValTypeImm => "WasmValTypeImm"
    case Int32Imm => "Int32Imm"
    case UInt32Imm => "UInt32Imm"
    case JSNativeImm => "JSNativeImm"
    case StaticStringImm => "StaticStringImm"
    case AllocKindImm => "AllocKindImm"
  }

  /** arg_writer_info: the C++ parameter type and the CacheIRWriter method that writes the argument; every operand id is written by writeOperandId. */
  function WriterInfo(t: ArgType): (string, string)
  {
    match t
    case Id(k) => (IdWriterType(k), "writeOperandId")
    case Field(k) => FieldWriterInfo(k)
    case Imm(k) => ImmWriterInfo(k)
  }

  function IdWriterType(k: IdType): string
  {
    match k
    case ValId => "ValOperandId"
    case ObjId => "ObjOperandId"
    case StringId => "StringOperandId"
    case SymbolId => "SymbolOperandId"
    case BooleanId => "BooleanOperandId"
    case Int32Id => "Int32OperandId"
    case NumberId => "NumberOperandId"
    case BigIntId => "BigIntOperandId"
    case ValueTagId => "ValueTagOperandId"
    case IntPtrId => "IntPtrOperandId"
    case RawId => "OperandId"
  }

  function FieldWriterInfo(k: FieldType): (string, string)
  {
    match k
    case ShapeField => ("Shape*", "writeShapeField")
    case GetterSetterField => ("GetterSetter*", "writeGetterSetterField")
    case ObjectField => ("JSObject*", "writeObjectField")
    case StringField => ("JSString*", "writeStringField")
    case AtomField => ("JSAtom*", "writeStringField")
    case PropertyNameField => ("PropertyName*", "writeStringField")
    case SymbolField => ("JS::Symbol*", "writeSymbolField")
    case BaseScriptField => ("BaseScript*", "writeBaseScriptField")
    case RawInt32Field => ("uint32_t", "writeRawInt32Field")
    case RawPointerField => ("const void*", "writeRawPointerField")
    case IdField => ("jsid", "writeIdField")
    case ValueField => ("const Value&", "writeValueField")
    case RawInt64Field => ("uint64_t", "writeRawInt64Field")
  }

  function ImmWriterInfo(k: ImmType): (string, string)
  {
    match k
    case JSOpImm => ("JSOp", "writeJSOpImm")
    case BoolImm => ("bool", "writeBoolImm")
    case ByteImm => ("uint32_t", "writeByteImm")
    case GuardClassKindImm => ("GuardClassKind", "writeGuardClassKindImm")
    case ValueTypeImm => ("ValueType", "writeValueTypeImm")
    case JSWhyMagicImm => ("JSWhyMagic", "writeJSWhyMagicImm")
    case CallFlagsImm => ("CallFlags", "writeCallFlagsImm")
    case ScalarTypeImm => ("Scalar::Type", "writeScalarTypeImm")
    case UnaryMathFunctionImm => ("UnaryMathFunction", "writeUnaryMathFunctionImm")
    case WasmValTypeImm => ("wasm::ValType::Kind", "writeWasmValTypeImm")
    case Int32Imm => ("int32_t", "writeInt32Imm")
    case UInt32Imm => ("uint32_t", "writeUInt32Imm")
    case JSNativeImm => ("JSNative", "writeJSNativeImm")
    case StaticStringImm => ("const char*", "writeStaticStringImm")
    case AllocKindImm => ("gc::AllocKind", "writeAllocKindImm")
  }

  /**
   * arg_reader_info: the C++ type, the name suffix, and the CacheIRReader
   * expression that reads the argument; every stub field is read as the
   * `uint32_t` offset `reader.stubOffset()` under the suffix `Offset`.
   */
  function ReaderInfo(t: ArgType): (string, string, string)
  {
    match t
    case Id(k) => (IdReaderType(k), "Id", IdReadExpr(k))
    case Field(_) => ("uint32_t", "Offset", "reader.stubOffset()")
    case Imm(k) => (ImmReaderInfo(k).0, "", ImmReaderInfo(k).1)
  }

  function IdReaderType(k: IdType): string
  {
    match k
    case ValId => "ValOperandId"
    case ObjId => "ObjOperandId"
    case StringId => "StringOperandId"
    case SymbolId => "SymbolOperandId"
    case BooleanId => "BooleanOperandId"
    case Int32Id => "Int32OperandId"
    case NumberId => "NumberOperandId"
    case BigIntId => "BigIntOperandId"
    case ValueTagId => "ValueTagOperandId"
    case IntPtrId => "IntPtrOperandId"
    case RawId => "uint32_t"
  }

  function IdReadExpr(k: IdType): string
  {
    match k
    case ValId => "reader.valOperandId()"
    case ObjId => "reader.objOperandId()"
    case StringId => "reader.stringOperandId()"
    case SymbolId => "reader.symbolOperandId()"
    case BooleanId => "reader.booleanOperandId()"
    case Int32Id => "reader.int32OperandId()"
    case NumberId => "reader.numberOperandId()"
    case BigIntId => "reader.bigIntOperandId()"
    case ValueTagId => "reader.valueTagOperandId()"
    case IntPtrId => "reader.intPtrOperandId()"
    case RawId => "reader.rawOperandId()"
  }

  function ImmReaderInfo(k: ImmType): (string, string)
  {
    match k
    case JSOpImm => ("JSOp", "reader.jsop()")
    case BoolImm => ("bool", "reader.readBool()")
    case ByteImm => ("uint8_t", "reader.readByte()")
    case GuardClassKindImm => ("GuardClassKind", "reader.guardClassKind()")
    case ValueTypeImm => ("ValueType", "reader.valueType()")
    case JSWhyMagicImm => ("JSWhyMagic", "reader.whyMagic()")
    case CallFlagsImm => ("CallFlags", "reader.callFlags()")
    case ScalarTypeImm => ("Scalar::Type", "reader.scalarType()")
    case UnaryMathFunctionImm => ("UnaryMathFunction", "reader.unaryMathFunction()")
    case WasmValTypeImm => ("wasm::ValType::Kind", "reader.wasmValType()")
    case Int32Imm => ("int32_t", "reader.int32Immediate()")
    case UInt32Imm => ("uint32_t", "reader.uint32Immediate()")
    case JSNativeImm => ("JSNative", "reinterpret_cast<JSNative>(reader.pointer())")
    case StaticStringImm => ("const char*", "reinterpret_cast<char*>(reader.pointer())")
    case AllocKindImm => ("gc::AllocKind", "reader.allocKind()")
  }

  /** arg_spewer_method: the spewer method that prints the argument. */
  function SpewerMethod(t: ArgType): string
  {
    match t
    case Id(RawId) => "spewRawOperandId"
    case Id(_) => "spewOperandId"
    case Field(_) => "spewField"
    case Imm(k) => "spew" + ImmTypeName(k)
  }

  /** arg_length, as str() writes it: the bytes the argument takes, or a C++ expression for them. */
  function ArgLengthText(t: ArgType): string
  {
    match t
    case Imm(Int32Imm) => "4"
    case Imm(UInt32Imm) => "4"
    case Imm(JSNativeImm) => "sizeof(uintptr_t)"
    case Imm(StaticStringImm) => "sizeof(uintptr_t)"
    case _ => "1"
  }

  /** No writer type is `void`, and none starts with the `p` of `private:`. */
  lemma WriterTypeShape(t: ArgType)
    ensures WriterInfo(t).0 != "void" && WriterInfo(t).0 != [] && WriterInfo(t).0[0] != 'p'
  {
    match t
    case Id(k) => IdWriterTypeShape(k);
    case Field(k) => FieldWriterTypeShape(k);
    case Imm(k) => ImmWriterTypeShape(k);
  }

  lemma IdWriterTypeShape(k: IdType)
    ensures IdWriterType(k) != [] && IdWriterType(k)[0] != 'p' && IdWriterType(k)[0] != 'v'
  {
    match k
    case ValId =>
    case ObjId =>
    case StringId =>
    case SymbolId =>
    case BooleanId =>
    case Int32Id =>
    case NumberId =>
    case BigIntId =>
    case ValueTagId =>
    case IntPtrId =>
    case RawId =>
  }

  lemma FieldWriterTypeShape(k: FieldType)
    ensures FieldWriterInfo(k).0 != [] && FieldWriterInfo(k).0[0] != 'p' && FieldWriterInfo(k).0[0] != 'v'
  {
    match k
    case ShapeField =>
    case GetterSetterField =>
    case ObjectField =>
    case StringField =>
    case AtomField =>
    case PropertyNameField =>
    case SymbolField =>
    case BaseScriptField =>
    case RawInt32Field =>
    case RawPointerField =>
    case IdField =>
    case ValueField =>
    case RawInt64Field =>
  }

  lemma ImmWriterTypeShape(k: ImmType)
    ensures ImmWriterInfo(k).0 != [] && ImmWriterInfo(k).0[0] != 'p' && ImmWriterInfo(k).0[0] != 'v'
  {
    match k
    case JSOpImm =>
    case BoolImm =>
    case ByteImm =>
    case GuardClassKindImm =>
    case ValueTypeImm =>
    case JSWhyMagicImm =>
    case CallFlagsImm =>
    case ScalarTypeImm =>
    case UnaryMathFunctionImm =>
    case WasmValTypeImm =>
    case Int32Imm =>
    case UInt32Imm =>
    case JSNativeImm =>
    case StaticStringImm =>
    case AllocKindImm =>
  }

  // ---------------------------------------------------------------------------
  // Text helpers

  /** ", ".join(parts) and the like: the parts with the separator between neighbours. */
  function Join(parts: seq<string>, sep: string): string
  {
    if parts == [] then ""
    else if |parts| == 1 then parts[0]
    else Join(parts[..|parts| - 1], sep) + sep + parts[|parts| - 1]
  }

  /** f applied to each element, in order. */
  function Map<A, B>(f: A -> B, xs: seq<A>): (r: seq<B>)
    ensures |r| == |xs|
  {
    if xs == [] then [] else Map(f, xs[..|xs| - 1]) + [f(xs[|xs| - 1])]
  }

  /** The k-th entry of the map is f of the k-th element. */
  lemma {:induction false} MapAt<A, B>(f: A -> B, xs: seq<A>)
    ensures forall k :: 0 <= k < |xs| ==> Map(f, xs)[k] == f(xs[k])
  {
    if xs != [] {
      var n := |xs| - 1;
      MapAt(f, xs[..n]);
      assert forall k :: 0 <= k < n ==> xs[..n][k] == xs[k];
    }
  }

  /** f applied to each element that `keep` accepts, in order. */
  function KeepMap<A, B>(keep: A -> bool, f: A -> B, xs: seq<A>): seq<B>
  {
    if xs == [] then []
    else KeepMap(keep, f, xs[..|xs| - 1]) + (if keep(xs[|xs| - 1]) then [f(xs[|xs| - 1])] else [])
  }

  /** How many elements `keep` rejects. */
  function CountDropped<A>(keep: A -> bool, xs: seq<A>): (n: nat)
    ensures n <= |xs|
  {
    if xs == [] then 0 else CountDropped(keep, xs[..|xs| - 1]) + (if keep(xs[|xs| - 1]) then 0 else 1)
  }

  /**
   * KeepMap keeps one image per accepted element and nothing else: its
   * length is the number of accepted elements, every accepted element's
   * image is in it, and each of its entries is some accepted element's image.
   */
  lemma {:induction false} KeepMapMembers<A, B>(keep: A -> bool, f: A -> B, xs: seq<A>)
    ensures |KeepMap(keep, f, xs)| + CountDropped(keep, xs) == |xs|
    ensures forall j :: 0 <= j < |xs| && keep(xs[j]) ==> f(xs[j]) in KeepMap(keep, f, xs)
    ensures forall k :: 0 <= k < |KeepMap(keep, f, xs)| ==>
              exists j :: 0 <= j < |xs| && keep(xs[j]) && KeepMap(keep, f, xs)[k] == f(xs[j])
  {
    if xs != [] {
      var n := |xs| - 1;
      var p := xs[..n];
      var before := KeepMap(keep, f, p);
      var r := KeepMap(keep, f, xs);
      KeepMapMembers(keep, f, p);
      assert r == before + (if keep(xs[n]) then [f(xs[n])] else []);
      forall j | 0 <= j < |xs| && keep(xs[j])
        ensures f(xs[j]) in r
      {
        if j < n {
          assert p[j] == xs[j];
          assert f(p[j]) in before;
        }
      }
      forall k | 0 <= k < |r|
        ensures exists j :: 0 <= j < |xs| && keep(xs[j]) && r[k] == f(xs[j])
      {
        if k < |before| {
          var j :| 0 <= j < |p| && keep(p[j]) && before[k] == f(p[j]);
          assert p[j] == xs[j];
          assert r[k] == before[k];
        } else {
          assert keep(xs[n]) && r[k] == f(xs[n]);
        }
      }
    }
  }


  /** Python's str() on a whole number. */
  function IntText(n: int): (r: string)
    ensures r != []
  {
    if n < 0 then "-" + Digits(-n, 10) else Digits(n, 10)
  }

  /** Reading back the decimal text gives the number. */
  lemma IntTextParses(n: int)
    ensures n >= 0 ==> ParseDigits(IntText(n), 10) == n
    ensures n < 0 ==> IntText(n)[0] == '-' && ParseDigits(IntText(n)[1..], 10) == -n
  {
    if n >= 0 {
      ParseDigitsOfDigits(n, 10);
    } else {
      ParseDigitsOfDigits(-n, 10);
      assert IntText(n)[1..] == Digits(-n, 10);
    }
  }

  // ---------------------------------------------------------------------------
  // gen_writer_method

  /** str.lower() and str.upper() on one character (ASCII letters). */
  function ToLower(c: char): char
  {
    if 'A' <= c <= 'Z' then ((c as int) + 32) as char else c
  }

  function ToUpper(c: char): char
  {
    if 'a' <= c <= 'z' then ((c as int) - 32) as char else c
  }

  /** The writer method's name: the op name with a lower-case first letter, and `_` for a custom writer. */
  function WriterMethodName(name: string, customWriter: bool): (r: string)
    requires name != ""
    ensures |r| == |name| + (if customWriter then 1 else 0)
  {
    [ToLower(name[0])] + name[1..] + (if customWriter then "_" else "")
  }

  /**
   * For an op name that starts with a capital, as CacheIR op names do, the
   * writer method's name starts with the lower-case letter, keeps the rest
   * of the name, and upper-casing its first letter gives the op name back.
   */
  lemma WriterMethodNameUndo(name: string, customWriter: bool)
    requires name != "" && 'A' <= name[0] <= 'Z'
    ensures var r := WriterMethodName(name, customWriter);
            'a' <= r[0] <= 'z' && r[1..|name|] == name[1..]
            && [ToUpper(r[0])] + r[1..|name|] == name
            && (customWriter ==> r[|name|..] == "_")
  {
    var r := WriterMethodName(name, customWriter);
    assert r[1..|name|] == name[1..];
    assert [ToUpper(r[0])] + name[1..] == name;
  }

  /** How many arguments are named `result`. */
  function ResultCount(args: seq<Arg>): (n: nat)
    ensures n <= |args|
  {
    if args == [] then 0
    else ResultCount(args[..|args| - 1]) + (if args[|args| - 1].0 == "result" then 1 else 0)
  }

  /** The writer's parameter for a non-result argument: its C++ type and its name. */
  function WriterParam(a: Arg): string
  {
    WriterInfo(a.1).0 + " " + a.0
  }

  /** An argument that becomes a parameter of the writer: any not named `result`. */
  predicate IsParamArg(a: Arg)
  {
    a.0 != "result"
  }

  /** method_args: the parameters of the writer method. */
  function WriterParams(args: seq<Arg>): seq<string>
  {
    KeepMap(IsParamArg, WriterParam, args)
  }

  /** ret_type: the C++ type of the last argument named `result`, else `void`. */
  function WriterReturnType(args: seq<Arg>): string
  {
    if args == [] then "void"
    else if args[|args| - 1].0 == "result" then WriterInfo(args[|args| - 1].1).0
    else WriterReturnType(args[..|args| - 1])
  }

  /** The writer's lines for the arguments: a fresh operand id for `result`, else a write of the parameter. */
  function WriterArgsCode(args: seq<Arg>): string
  {
    if args == [] then ""
    else
      var a := args[|args| - 1];
      var before := WriterArgsCode(args[..|args| - 1]);
      if a.0 == "result" then
        before + ("  " + WriterInfo(a.1).0 + " result(newOperandId());" + LT) + ("  writeOperandId(result);" + LT)
      else
        before + ("  " + WriterInfo(a.1).1 + "(" + a.0 + ");" + LT)
  }

  /** The signature line of the writer method. */
  function WriterSignature(name: string, args: seq<Arg>, customWriter: bool): string
    requires name != ""
  {
    WriterReturnType(args) + " " + WriterMethodName(name, customWriter) + "(" + Join(WriterParams(args), ", ") + ") {" + LT
  }

  /** `private:` before a custom writer. */
  function WriterPrefix(customWriter: bool): string
  {
    if customWriter then "private:" + LT else ""
  }

  /** The opcode line every writer method starts with. */
  function WriteOpLine(name: string): string
  {
    "  writeOp(CacheOp::" + name + ");" + LT
  }

  /** The line that asserts the bytes written match the op's declared length. */
  const AssertLengthLine: string := "  assertLengthMatches();" + LT

  /** The line that returns the fresh operand id. */
  const ReturnResultLine: string := "  return result;" + LT

  /** The return line, for a method that has a result. */
  function WriterReturnLine(args: seq<Arg>): string
  {
    if WriterReturnType(args) != "void" then ReturnResultLine else ""
  }

  /** `public:` after a custom writer. */
  function WriterSuffix(customWriter: bool): string
  {
    if customWriter then LT + "public:" else ""
  }

  /**
   * A writer method laid out from its parts: what comes before the opcode
   * line, the opcode line, the argument lines, the length assertion, the
   * return line if any, the closing brace, and what follows it.
   */
  function WriterLayout(head: string, opLine: string, argsCode: string, ret: string, post: string): string
  {
    head + opLine + argsCode + AssertLengthLine + ret + "}" + post
  }

  /**
   * The text gen_writer_method returns: the signature, the opcode, the
   * arguments, the length assertion, the return of `result` when there is
   * one, the brace; between `private:` and `public:` for a custom writer.
   */
  function WriterText(name: string, args: seq<Arg>, customWriter: bool): string
    requires name != ""
  {
    WriterLayout(WriterPrefix(customWriter) + WriterSignature(name, args, customWriter), WriteOpLine(name),
                 WriterArgsCode(args), WriterReturnLine(args), WriterSuffix(customWriter))
  }

  /** gen_writer_method. */
  method GenWriterMethod(name: string, args: seq<Arg>, customWriter: bool) returns (code: string)
    requires name != ""
    ensures code == WriterText(name, args, customWriter)
  {
    var methodName := [ToLower(name[0])] + name[1..];
    if customWriter {
      methodName := methodName + "_";
    }
    assert methodName == WriterMethodName(name, customWriter);
    var methodArgs: seq<string> := [];
    var retType := "void";
    var argsCode := "";
    var i := 0;
    while i < |args|
      invariant 0 <= i <= |args|
      invariant methodArgs == WriterParams(args[..i])
      invariant retType == WriterReturnType(args[..i])
      invariant argsCode == WriterArgsCode(args[..i])
    {
      assert args[..i + 1][..i] == args[..i];
      var (argName, argType) := args[i];
      var (cppType, writeMethod) := WriterInfo(argType);
      if argName == "result" {
        retType := cppType;
        argsCode := argsCode + ("  " + cppType + " result(newOperandId());" + LT);
        argsCode := argsCode + ("  writeOperandId(result);" + LT);
      } else {
        methodArgs := methodArgs + [cppType + " " + argName];
        argsCode := argsCode + ("  " + writeMethod + "(" + argName + ");" + LT);
      }
      i := i + 1;
    }
    assert args[..i] == args;
    code := "";
    if customWriter {
      code := code + ("private:" + LT);
    }
    assert code == WriterPrefix(customWriter);
    code := code + (retType + " " + methodName + "(" + Join(methodArgs, ", ") + ") {" + LT);
    code := code + ("  writeOp(CacheOp::" + name + ");" + LT);
    code := code + argsCode;
    code := code + ("  assertLengthMatches();" + LT);
    if retType != "void" {
      code := code + ("  return result;" + LT);
    } else {
      assert code + "" == code;
    }
    code := code + "}";
    if customWriter {
      code := code + (LT + "public:");
    } else {
      assert code + "" == code;
    }
  }

  /** The parameters are the declarations of the arguments not named `result`: each of them, and nothing else. */
  lemma WriterParamsMembers(args: seq<Arg>)
    ensures |WriterParams(args)| + ResultCount(args) == |args|
    ensures forall j :: 0 <= j < |args| && IsParamArg(args[j]) ==> WriterParam(args[j]) in WriterParams(args)
    ensures forall k :: 0 <= k < |WriterParams(args)| ==>
              exists j :: 0 <= j < |args| && IsParamArg(args[j]) && WriterParams(args)[k] == WriterParam(args[j])
  {
    var keep: Arg -> bool, f: Arg -> string := IsParamArg, WriterParam;
    KeepMapMembers(keep, f, args);
    ResultsDropped(args);
    var r := KeepMap(keep, f, args);
    assert r == WriterParams(args);
    forall j | 0 <= j < |args| && IsParamArg(args[j])
      ensures WriterParam(args[j]) in r
    {
      assert keep(args[j]);
    }
    forall k | 0 <= k < |r|
      ensures exists j :: 0 <= j < |args| && IsParamArg(args[j]) && r[k] == WriterParam(args[j])
    {
      var j :| 0 <= j < |args| && keep(args[j]) && r[k] == f(args[j]);
      assert IsParamArg(args[j]) && r[k] == WriterParam(args[j]);
    }
  }

  /** The arguments named `result` are the ones that are not parameters. */
  lemma {:induction false} ResultsDropped(args: seq<Arg>)
    ensures ResultCount(args) == CountDropped(IsParamArg, args)
  {
    if args != [] {
      ResultsDropped(args[..|args| - 1]);
    }
  }

  /** The method returns a value exactly when some argument is named `result`, and then it has that argument's type. */
  lemma {:induction false} WriterReturnsResult(args: seq<Arg>)
    ensures WriterReturnType(args) != "void" <==> ResultCount(args) > 0
    ensures ResultCount(args) > 0 ==>
              exists j :: 0 <= j < |args| && args[j].0 == "result" && WriterReturnType(args) == WriterInfo(args[j].1).0
  {
    if args != [] {
      var n := |args| - 1;
      var p := args[..n];
      WriterReturnsResult(p);
      WriterTypeShape(args[n].1);
      assert forall j :: 0 <= j < n ==> p[j] == args[j];
    }
  }

  /** A custom writer starts with `private:` and ends with `public:`. */
  lemma CustomWriterGuards(name: string, args: seq<Arg>)
    requires name != ""
    ensures |WriterText(name, args, true)| > 18
    ensures WriterText(name, args, true)[..10] == "private:" + LT
    ensures WriterText(name, args, true)[|WriterText(name, args, true)| - 9..] == LT + "public:"
  {
    LayoutEnds(WriterPrefix(true) + WriterSignature(name, args, true), WriteOpLine(name), WriterArgsCode(args),
               WriterReturnLine(args), WriterSuffix(true), 10);
  }

  /** Any other writer starts with its return type, so not with `private:`, and ends with its brace. */
  lemma PlainWriterEnds(name: string, args: seq<Arg>)
    requires name != ""
    ensures WriterReturnType(args) <= WriterText(name, args, false)
    ensures WriterText(name, args, false)[0] != 'p'
    ensures WriterText(name, args, false)[|WriterText(name, args, false)| - 1] == '}'
  {
    WriterReturnTypeStart(args);
    var ret := WriterReturnType(args);
    var head := WriterPrefix(false) + WriterSignature(name, args, false);
    assert head[..|ret|] == ret;
    LayoutEnds(head, WriteOpLine(name), WriterArgsCode(args), WriterReturnLine(args), WriterSuffix(false), |ret|);
  }

  /** The return type is never empty and never starts with `p`. */
  lemma WriterReturnTypeStart(args: seq<Arg>)
    ensures WriterReturnType(args) != [] && WriterReturnType(args)[0] != 'p'
  {
    WriterReturnsResult(args);
    if WriterReturnType(args) != "void" {
      var j :| 0 <= j < |args| && args[j].0 == "result" && WriterReturnType(args) == WriterInfo(args[j].1).0;
      WriterTypeShape(args[j].1);
    }
  }

  /** The opcode line directly follows the signature, and the method closes with the length assertion and, when it has a result, its return. */
  lemma WriterBodyBrackets(name: string, args: seq<Arg>, customWriter: bool)
    requires name != ""
    ensures |WriterPrefix(customWriter) + WriterSignature(name, args, customWriter)| + |WriteOpLine(name)|
            <= |WriterText(name, args, customWriter)|
    ensures WriterText(name, args, customWriter)[|WriterPrefix(customWriter) + WriterSignature(name, args, customWriter)|..
                                                |WriterPrefix(customWriter) + WriterSignature(name, args, customWriter)| + |WriteOpLine(name)|]
            == WriteOpLine(name)
    ensures WriterText(name, args, customWriter)[|WriterPrefix(customWriter) + WriterSignature(name, args, customWriter) + WriteOpLine(name) + WriterArgsCode(args)|..]
            == AssertLengthLine + WriterReturnLine(args) + "}" + WriterSuffix(customWriter)
  {
    Bracketed(WriterPrefix(customWriter) + WriterSignature(name, args, customWriter), WriteOpLine(name),
              WriterArgsCode(args), WriterReturnLine(args), WriterSuffix(customWriter));
  }

  /** In a laid-out method, the opcode line sits right after the head and the text ends with the closing lines. */
  lemma Bracketed(head: string, line: string, middle: string, ret: string, post: string)
    ensures |head| + |line| <= |WriterLayout(head, line, middle, ret, post)|
    ensures WriterLayout(head, line, middle, ret, post)[|head|..|head| + |line|] == line
    ensures WriterLayout(head, line, middle, ret, post)[|head + line + middle|..] == AssertLengthLine + ret + "}" + post
  {
    var r := WriterLayout(head, line, middle, ret, post);
    assert r == (head + line) + (middle + (AssertLengthLine + ret + "}" + post));
  }

  /** A laid-out method starts with its head and ends with what follows the brace, the brace just before it. */
  lemma LayoutEnds(head: string, line: string, middle: string, ret: string, post: string, k: nat)
    requires k <= |head|
    ensures |WriterLayout(head, line, middle, ret, post)| >= |head| + |post| + 1
    ensures WriterLayout(head, line, middle, ret, post)[..k] == head[..k]
    ensures WriterLayout(head, line, middle, ret, post)[|WriterLayout(head, line, middle, ret, post)| - |post|..] == post
    ensures WriterLayout(head, line, middle, ret, post)[|WriterLayout(head, line, middle, ret, post)| - |post| - 1] == '}'
  {
    var body := head + line + middle + AssertLengthLine + ret;
    assert WriterLayout(head, line, middle, ret, post) == head + (line + middle + AssertLengthLine + ret + "}" + post);
    assert WriterLayout(head, line, middle, ret, post) == (body + "}") + post;
  }

  // ---------------------------------------------------------------------------
  // gen_compiler_method

  /** cpp_name: the argument's name with its reader suffix. */
  function CompilerArgName(a: Arg): string
  {
    a.0 + ReaderInfo(a.1).1
  }

  /** A parameter of the emit method: the reader's C++ type and the suffixed name. */
  function CompilerParam(a: Arg): string
  {
    ReaderInfo(a.1).0 + " " + CompilerArgName(a)
  }

  /** cpp_args: the suffixed names, in argument order. */
  function CompilerArgNames(args: seq<Arg>): seq<string>
  {
    Map(CompilerArgName, args)
  }

  /** method_args: the parameters, in argument order. */
  function CompilerParams(args: seq<Arg>): seq<string>
  {
    Map(CompilerParam, args)
  }

  /** The line that reads one argument from the CacheIRReader into its variable. */
  function CompilerReadLine(a: Arg): string
  {
    "  " + CompilerParam(a) + " = " + ReaderInfo(a.1).2 + ";" + LT
  }

  /** args_code: one read line per argument. */
  function CompilerArgsCode(args: seq<Arg>): string
  {
    if args == [] then "" else CompilerArgsCode(args[..|args| - 1]) + CompilerReadLine(args[|args| - 1])
  }

  /**
   * The text gen_compiler_method returns: the declaration of the emit
   * method taking the decoded arguments, and an overload taking the reader
   * that decodes each argument and forwards them all.
   */
  function CompilerText(name: string, args: seq<Arg>): string
  {
    "[[nodiscard]] bool " + ("emit" + name) + "(" + Join(CompilerParams(args), ", ") + ");" + LT
    + ("[[nodiscard]] bool " + ("emit" + name) + "(CacheIRReader& reader) {" + LT)
    + CompilerArgsCode(args)
    + ("  return " + ("emit" + name) + "(" + Join(CompilerArgNames(args), ", ") + ");" + LT)
    + ("}" + LT)
  }

  /** gen_compiler_method. */
  method GenCompilerMethod(name: string, args: seq<Arg>) returns (code: string)
    ensures code == CompilerText(name, args)
  {
    var methodName := "emit" + name;
    var cppArgs: seq<string> := [];
    var methodArgs: seq<string> := [];
    var argsCode := "";
    var i := 0;
    while i < |args|
      invariant 0 <= i <= |args|
      invariant cppArgs == CompilerArgNames(args[..i])
      invariant methodArgs == CompilerParams(args[..i])
      invariant argsCode == CompilerArgsCode(args[..i])
    {
      assert args[..i + 1][..i] == args[..i];
      var (argName, argType) := args[i];
      var (cppType, suffix, readExpr) := ReaderInfo(argType);
      var cppName := argName + suffix;
      cppArgs := cppArgs + [cppName];
      methodArgs := methodArgs + [cppType + " " + cppName];
      argsCode := argsCode + ("  " + (cppType + " " + cppName) + " = " + readExpr + ";" + LT);
      i := i + 1;
    }
    assert args[..i] == args;
    code := "[[nodiscard]] bool " + methodName + "(" + Join(methodArgs, ", ") + ");" + LT;
    code := code + ("[[nodiscard]] bool " + methodName + "(CacheIRReader& reader) {" + LT);
    code := code + argsCode;
    code := code + ("  return " + methodName + "(" + Join(cppArgs, ", ") + ");" + LT);
    code := code + ("}" + LT);
  }

  /**
   * The declaration and the forwarding call agree: the k-th parameter
   * declares, with the reader's type, the k-th name the call passes, and
   * that name is the k-th argument's name with its reader suffix.
   */
  lemma CompilerNamesAgree(args: seq<Arg>, k: int)
    requires 0 <= k < |args|
    ensures k < |CompilerParams(args)| && k < |CompilerArgNames(args)|
    ensures CompilerArgNames(args)[k] == args[k].0 + ReaderInfo(args[k].1).1
    ensures CompilerParams(args)[k] == ReaderInfo(args[k].1).0 + " " + CompilerArgNames(args)[k]
  {
    MapAt(CompilerArgName, args);
    MapAt(CompilerParam, args);
  }

  /** The names and parameters in the example of gen_compiler_method's comment, GuardShape(obj: ObjId, shape: ShapeField). */
  lemma CompilerGuardShape()
    ensures CompilerArgNames([("obj", Id(ObjId)), ("shape", Field(ShapeField))]) == ["objId", "shapeOffset"]
    ensures CompilerParams([("obj", Id(ObjId)), ("shape", Field(ShapeField))]) == ["ObjOperandId objId", "uint32_t shapeOffset"]
  {
    var obj, shape := ("obj", Id(ObjId)), ("shape", Field(ShapeField));
    MapAt(CompilerArgName, [obj, shape]);
    MapAt(CompilerParam, [obj, shape]);
    assert CompilerArgName(obj) == "objId";
    assert CompilerArgName(shape) == "shapeOffset";
    assert CompilerParam(obj) == "ObjOperandId objId";
    assert CompilerParam(shape) == "uint32_t shapeOffset";
  }


  // ---------------------------------------------------------------------------
  // gen_spewer_method

  /** The line that prints one argument, under its suffixed name, as the reader decodes it. */
  function SpewCall(a: Arg): string
  {
    "  " + SpewerMethod(a.1) + "(\"" + CompilerArgName(a) + "\", " + ReaderInfo(a.1).2 + ");" + LT
  }

  /** The print lines, in argument order. */
  function SpewCalls(args: seq<Arg>): seq<string>
  {
    Map(SpewCall, args)
  }

  /** The line printed between two arguments. */
  const SpewSeparatorLine: string := "  spewArgSeparator();" + LT

  /**
   * The text gen_spewer_method returns: the op, the print lines of the
   * arguments with a separator between neighbours, and the end of the op.
   */
  function SpewerText(name: string, args: seq<Arg>): string
  {
    "void " + ("spew" + name) + "(CacheIRReader& reader) {" + LT
    + ("  spewOp(CacheOp::" + name + ");" + LT)
    + Join(SpewCalls(args), SpewSeparatorLine)
    + ("  spewOpEnd();" + LT)
    + ("}" + LT)
  }

  /** Joining one more part adds the separator and the part. */
  lemma JoinSnoc(parts: seq<string>, sep: string, p: string)
    ensures Join(parts + [p], sep) == (if parts == [] then p else Join(parts, sep) + sep + p)
  {
    assert (parts + [p])[..|parts|] == parts;
  }

  /** The body of gen_spewer_method's loop: the print line of one argument. */
  method SpewArgLine(arg: Arg) returns (line: string)
    ensures line == SpewCall(arg)
  {
    var (argName, argType) := arg;
    var (_, suffix, readExpr) := ReaderInfo(argType);
    argName := argName + suffix;
    var spewMethod := SpewerMethod(argType);
    line := "  " + spewMethod + "(\"" + argName + "\", " + readExpr + ");" + LT;
  }

  /** gen_spewer_method. */
  method GenSpewerMethod(name: string, args: seq<Arg>) returns (code: string)
    ensures code == SpewerText(name, args)
  {
    var methodName := "spew" + name;
    var argsCode := "";
    var isFirst := true;
    var i := 0;
    while i < |args|
      invariant 0 <= i <= |args|
      invariant isFirst <==> i == 0
      invariant argsCode == Join(SpewCalls(args[..i]), SpewSeparatorLine)
    {
      assert args[..i + 1][..i] == args[..i];
      JoinSnoc(SpewCalls(args[..i]), SpewSeparatorLine, SpewCall(args[i]));
      if !isFirst {
        argsCode := argsCode + SpewSeparatorLine;
      }
      var line := SpewArgLine(args[i]);
      argsCode := argsCode + line;
      isFirst := false;
      i := i + 1;
    }
    assert args[..i] == args;
    code := "void " + methodName + "(CacheIRReader& reader) {" + LT;
    code := code + ("  spewOp(CacheOp::" + name + ");" + LT);
    code := code + argsCode;
    code := code + ("  spewOpEnd();" + LT);
    code := code + ("}" + LT);
  }


  /**
   * The separator sits exactly between neighbours: cutting the parts
   * anywhere, the joined text is the first part's text, one separator, and
   * the rest's text.
   */
  lemma {:induction false} JoinSplit(parts: seq<string>, sep: string, k: int)
    requires 0 < k < |parts|
    ensures Join(parts, sep) == Join(parts[..k], sep) + sep + Join(parts[k..], sep)
    decreases |parts|
  {
    var n := |parts| - 1;
    assert parts == parts[..n] + [parts[n]];
    JoinSnoc(parts[..n], sep, parts[n]);
    if k == n {
      assert parts[k..] == [parts[n]];
    } else {
      JoinSplit(parts[..n], sep, k);
      assert parts[..n][..k] == parts[..k];
      assert parts[k..] == parts[..n][k..] + [parts[n]];
      JoinSnoc(parts[..n][k..], sep, parts[n]);
    }
  }

  // ---------------------------------------------------------------------------
  // gen_clone_method

  /** The clone treats a raw operand id as a value operand id. */
  function CloneType(t: ArgType): (r: ArgType)
    ensures r != Id(RawId)
    ensures r == t || (t == Id(RawId) && r == Id(ValId))
  {
    if t == Id(RawId) then Id(ValId) else t
  }

  /** A C++ type with a trailing `&` dropped: the type of a local that holds the referenced value. */
  function StripRef(s: string): (r: string)
    ensures s == r + "&" || (r == s && (s == [] || s[|s| - 1] != '&'))
  {
    if s != [] && s[|s| - 1] == '&' then s[..|s| - 1] else s
  }

  /** The argument as the clone sees it: its name and its type, a raw id as a value id. */
  function CloneArg(a: Arg): Arg
  {
    (a.0, CloneType(a.1))
  }

  /**
   * The lines that clone one argument, after `before`: read it into
   * `readName`; for `result`, reserve a fresh operand id; for a stub field,
   * load the field's value at the offset into a local named as the argument;
   * then write that value (the local for a field, else what was read).
   */
  function CloneArgLines(before: string, argName: string, readType: string, suffix: string, readExpr: string,
                         writeType: string, writeMethod: string, typeName: string): string
  {
    before
    + ("  " + (readType + " " + (argName + suffix)) + " = " + readExpr + ";" + LT)
    + (if argName == "result" then "  writer.newOperandId();" + LT else "")
    + (if suffix == "Offset"
       then "  " + StripRef(writeType) + " " + argName + " = get" + typeName + "(" + (argName + suffix) + ");" + LT
       else "")
    + ("  writer." + writeMethod + "(" + (if suffix == "Offset" then argName else argName + suffix) + ");" + LT)
  }

  /** The lines for one argument, with the reader's and writer's entries for its type. */
  function CloneArgText(before: string, a: Arg): string
  {
    CloneArgLines(before, a.0, ReaderInfo(CloneType(a.1)).0, ReaderInfo(CloneType(a.1)).1, ReaderInfo(CloneType(a.1)).2,
                  WriterInfo(CloneType(a.1)).0, WriterInfo(CloneType(a.1)).1, TypeName(CloneType(a.1)))
  }

  /** args_code: the lines of every argument, in argument order. */
  function CloneArgsCode(args: seq<Arg>): string
  {
    if args == [] then "" else CloneArgText(CloneArgsCode(args[..|args| - 1]), args[|args| - 1])
  }

  /**
   * The text gen_clone_method returns. Its braces are doubled, `{{` and
   * `}}`, because the template is not passed through format(); the C++ it
   * makes is still a well-formed body holding one nested block.
   */
  function CloneText(name: string, args: seq<Arg>): string
  {
    "void " + ("clone" + name) + ("(CacheIRReader& reader, CacheIRWriter& writer) {{" + LT)
    + ("  writer.writeOp(CacheOp::" + name + ");" + LT)
    + CloneArgsCode(args)
    + ("  writer.assertLengthMatches();" + LT)
    + ("}}" + LT)
  }

  /** The appends of gen_clone_method's loop body, given the table entries for the argument's type. */
  method AppendCloneArg(before: string, argName: string, readType: string, suffix: string, readExpr: string,
                        writeType: string, writeMethod: string, typeName: string) returns (argsCode: string)
    ensures argsCode == CloneArgLines(before, argName, readType, suffix, readExpr, writeType, writeMethod, typeName)
  {
    argsCode := before;
    var readName := argName + suffix;
    var valueName := readName;
    argsCode := argsCode + ("  " + (readType + " " + readName) + " = " + readExpr + ";" + LT);
    if argName == "result" {
      argsCode := argsCode + ("  writer.newOperandId();" + LT);
    } else {
      assert argsCode + "" == argsCode;
    }
    var localType := writeType;
    if suffix == "Offset" {
      if |localType| > 0 && localType[|localType| - 1] == '&' {
        localType := localType[..|localType| - 1];
      }
      valueName := argName;
      argsCode := argsCode + ("  " + localType + " " + valueName + " = get" + typeName + "(" + readName + ");" + LT);
    } else {
      assert argsCode + "" == argsCode;
    }
    argsCode := argsCode + ("  writer." + writeMethod + "(" + valueName + ");" + LT);
  }

  /** gen_clone_method's loop body: a raw id taken as a value id, the table entries looked up, the lines appended. */
  method PushCloneArg(before: string, arg: Arg) returns (argsCode: string)
    ensures argsCode == CloneArgText(before, arg)
  {
    var (argName, argType) := arg;
    if argType == Id(RawId) {
      argType := Id(ValId);
    }
    assert argType == CloneType(arg.1);
    var (readType, suffix, readExpr) := ReaderInfo(argType);
    var (writeType, writeMethod) := WriterInfo(argType);
    argsCode := AppendCloneArg(before, argName, readType, suffix, readExpr, writeType, writeMethod, TypeName(argType));
  }

  /** gen_clone_method's loop over the arguments. */
  method CloneArgsLoop(args: seq<Arg>) returns (argsCode: string)
    ensures argsCode == CloneArgsCode(args)
  {
    argsCode := "";
    var i := 0;
    while i < |args|
      invariant 0 <= i <= |args|
      invariant argsCode == CloneArgsCode(args[..i])
    {
      assert args[..i + 1][..i] == args[..i];
      argsCode := PushCloneArg(argsCode, args[i]);
      i := i + 1;
    }
    assert args[..i] == args;
  }

  /** gen_clone_method. */
  method GenCloneMethod(name: string, args: seq<Arg>) returns (code: string)
    ensures code == CloneText(name, args)
  {
    var methodName := "clone" + name;
    var argsCode := CloneArgsLoop(args);
    code := "void " + methodName;
    code := code + ("(CacheIRReader& reader, CacheIRWriter& writer) {{" + LT);
    code := code + ("  writer.writeOp(CacheOp::" + name + ");" + LT);
    code := code + argsCode;
    code := code + ("  writer.assertLengthMatches();" + LT);
    code := code + ("}}" + LT);
  }

  /** The lines for an argument start with the line that reads it. */
  lemma CloneLinesStart(before: string, argName: string, readType: string, suffix: string, readExpr: string,
                        writeType: string, writeMethod: string, typeName: string)
    ensures before + ("  " + (readType + " " + (argName + suffix)) + " = " + readExpr + ";" + LT)
            <= CloneArgLines(before, argName, readType, suffix, readExpr, writeType, writeMethod, typeName)
  {
  }

  /**
   * The clone's lines for an argument start with the line the compiler's
   * forwarder reads it with, except that a raw id is read as a value id.
   */
  lemma CloneReadsLikeCompiler(before: string, a: Arg)
    ensures before + CompilerReadLine(CloneArg(a)) <= CloneArgText(before, a)
    ensures a.1 != Id(RawId) ==> CloneArg(a) == a
    ensures a.1 == Id(RawId) ==> CloneArg(a) == (a.0, Id(ValId))
  {
    var t := CloneType(a.1);
    CloneLinesStart(before, a.0, ReaderInfo(t).0, ReaderInfo(t).1, ReaderInfo(t).2, WriterInfo(t).0, WriterInfo(t).1, TypeName(t));
  }

  /** `w` is a suffix of `s`. */
  predicate EndsWith(s: string, w: string)
  {
    |w| <= |s| && s[|s| - |w|..] == w
  }

  /** The lines for an argument end with the write of the value: the loaded local for a field, else what was read. */
  lemma CloneLinesEnd(before: string, argName: string, readType: string, suffix: string, readExpr: string,
                      writeType: string, writeMethod: string, typeName: string)
    ensures EndsWith(CloneArgLines(before, argName, readType, suffix, readExpr, writeType, writeMethod, typeName),
                     "  writer." + writeMethod + "(" + (if suffix == "Offset" then argName else argName + suffix) + ");" + LT)
  {
  }

  /**
   * A stub field is written from the local it was loaded into, named as
   * the argument; any other argument straight from the variable it was
   * read into, with its reader suffix.
   */
  lemma CloneWritesValue(before: string, a: Arg)
    ensures a.1.Field? ==> EndsWith(CloneArgText(before, a), "  writer." + WriterInfo(a.1).1 + "(" + a.0 + ");" + LT)
    ensures !a.1.Field? ==>
              EndsWith(CloneArgText(before, a), "  writer." + WriterInfo(CloneType(a.1)).1 + "(" + CompilerArgName(CloneArg(a)) + ");" + LT)
  {
    var t := CloneType(a.1);
    CloneLinesEnd(before, a.0, ReaderInfo(t).0, ReaderInfo(t).1, ReaderInfo(t).2, WriterInfo(t).0, WriterInfo(t).1, TypeName(t));
  }

  /** The one writer type taken by reference, `const Value&`, is loaded into a `const Value`. */
  lemma CloneValueFieldLocal()
    ensures WriterInfo(Field(ValueField)).0 == "const Value&"
    ensures StripRef(WriterInfo(Field(ValueField)).0) == "const Value"
  {
  }

  // ---------------------------------------------------------------------------
  // generate_cacheirops_header: the per-op loop

  /** An op name; the writer's name is built from its first letter, so it is never empty. */
  type OpName = s: string | s != [] witness "Op"

  /** One entry of CacheIROps.yaml; the optional keys are absent when `None`. */
  datatype Op = Op(name: OpName, args: seq<Arg>, shared: bool, transpile: bool,
                   costEstimate: Option<int>, customWriter: Option<bool>)

  /** Ops without a cost estimate are costed at UINT32_MAX. */
  const DefaultCost: int := 0xFFFF_FFFF

  function CostOf(op: Op): int
  {
    if op.costEstimate.Some? then op.costEstimate.value else DefaultCost
  }

  function CustomWriterOf(op: Op): bool
  {
    op.customWriter.Some? && op.customWriter.value
  }

  function ArgLengthOf(a: Arg): string
  {
    ArgLengthText(a.1)
  }

  /** args_length: the arguments' lengths joined by ` + `, or `0` for an op without arguments. */
  function ArgsLength(args: seq<Arg>): string
  {
    if args == [] then "0" else Join(Map(ArgLengthOf, args), " + ")
  }

  /** The CACHE_IR_OPS item of an op: `_(name, length, transpile, cost)`. */
  function OpItem(op: Op): string
  {
    "_(" + op.name + ", " + ArgsLength(op.args) + ", " + (if op.transpile then "true" else "false") + ", "
    + IntText(CostOf(op)) + ")"
  }

  /** The CACHE_IR_TRANSPILER_OPS item of an op. */
  function TranspilerOpItem(op: Op): string
  {
    "_(" + op.name + ")"
  }

  function OpWriterText(op: Op): string
  {
    WriterText(op.name, op.args, CustomWriterOf(op))
  }

  function OpCompilerText(op: Op): string
  {
    CompilerText(op.name, op.args)
  }

  function OpSpewerText(op: Op): string
  {
    SpewerText(op.name, op.args)
  }

  function OpCloneText(op: Op): string
  {
    CloneText(op.name, op.args)
  }

  predicate IsShared(op: Op)
  {
    op.shared
  }

  predicate IsUnshared(op: Op)
  {
    !op.shared
  }

  predicate IsTranspiled(op: Op)
  {
    op.transpile
  }

  /** The eight lists the loop fills, one entry per op in each unfiltered list. */
  datatype Generated = Generated(
    opsItems: seq<string>,
    writerMethods: seq<string>,
    compilerSharedMethods: seq<string>,
    compilerUnsharedMethods: seq<string>,
    transpilerMethods: seq<string>,
    transpilerOps: seq<string>,
    spewerMethods: seq<string>,
    cloneMethods: seq<string>)

  /**
   * What the loop produces: every op's item, writer, spewer and clone, in
   * op order; its compiler text among the shared or else the unshared
   * methods; and, for an op the transpiler supports, its compiler text and
   * its name among the transpiler's.
   */
  function GeneratedOf(ops: seq<Op>): Generated
  {
    Generated(
      Map(OpItem, ops),
      Map(OpWriterText, ops),
      KeepMap(IsShared, OpCompilerText, ops),
      KeepMap(IsUnshared, OpCompilerText, ops),
      KeepMap(IsTranspiled, OpCompilerText, ops),
      KeepMap(IsTranspiled, TranspilerOpItem, ops),
      Map(OpSpewerText, ops),
      Map(OpCloneText, ops))
  }

  /** The CACHE_IR_OPS item of one op, as the loop formats it. */
  method FormatOpItem(op: Op) returns (item: string)
    ensures item == OpItem(op)
  {
    var cost := DefaultCost;
    if op.costEstimate.Some? {
      cost := op.costEstimate.value;
    }
    var argsLength := "0";
    if op.args != [] {
      argsLength := Join(Map(ArgLengthOf, op.args), " + ");
    }
    var transpileStr := if op.transpile then "true" else "false";
    item := "_(" + op.name + ", " + argsLength + ", " + transpileStr + ", " + IntText(cost) + ")";
  }

  /** The compiler and transpiler lists after one more op. */
  function FileCompiler(g: Generated, op: Op): Generated
  {
    g.(compilerSharedMethods := g.compilerSharedMethods + (if op.shared then [OpCompilerText(op)] else []),
       compilerUnsharedMethods := g.compilerUnsharedMethods + (if op.shared then [] else [OpCompilerText(op)]),
       transpilerMethods := g.transpilerMethods + (if op.transpile then [OpCompilerText(op)] else []),
       transpilerOps := g.transpilerOps + (if op.transpile then [TranspilerOpItem(op)] else []))
  }

  /** The lists after one more op. */
  function AddOp(g: Generated, op: Op): Generated
  {
    var h := FileCompiler(g.(opsItems := g.opsItems + [OpItem(op)], writerMethods := g.writerMethods + [OpWriterText(op)]), op);
    h.(spewerMethods := h.spewerMethods + [OpSpewerText(op)], cloneMethods := h.cloneMethods + [OpCloneText(op)])
  }

  /** Generating one more op appends its entries to the lists of the ops before it. */
  lemma GeneratedSnoc(ops: seq<Op>, i: int)
    requires 0 <= i < |ops|
    ensures GeneratedOf(ops[..i + 1]) == AddOp(GeneratedOf(ops[..i]), ops[i])
  {
    assert ops[..i + 1][..i] == ops[..i];
  }

  /** The body of the loop: one op's texts, each filed into its lists. */
  method PushOp(g: Generated, op: Op) returns (r: Generated)
    ensures r == AddOp(g, op)
  {
    var item := FormatOpItem(op);
    var writer := GenWriterMethod(op.name, op.args, CustomWriterOf(op));
    r := g.(opsItems := g.opsItems + [item], writerMethods := g.writerMethods + [writer]);
    r := FileCompilerMethods(r, op);
    var spewer := GenSpewerMethod(op.name, op.args);
    var clone := GenCloneMethod(op.name, op.args);
    r := r.(spewerMethods := r.spewerMethods + [spewer], cloneMethods := r.cloneMethods + [clone]);
  }

  /** The shared, unshared and transpiler lists after one more op. */
  method FileCompilerMethods(g: Generated, op: Op) returns (r: Generated)
    ensures r == FileCompiler(g, op)
  {
    // gen_compiler_method is called once per list in the script; its text depends only on the op.
    var compiler := GenCompilerMethod(op.name, op.args);
    r := g;
    if op.shared {
      r := r.(compilerSharedMethods := r.compilerSharedMethods + [compiler]);
    } else {
      r := r.(compilerUnsharedMethods := r.compilerUnsharedMethods + [compiler]);
    }
    if op.transpile {
      r := r.(transpilerMethods := r.transpilerMethods + [compiler], transpilerOps := r.transpilerOps + ["_(" + op.name + ")"]);
    }
  }

  /** The loop of generate_cacheirops_header over the ops, in file order. */
  method GenerateOps(ops: seq<Op>) returns (g: Generated)
    ensures g == GeneratedOf(ops)
  {
    g := Generated([], [], [], [], [], [], [], []);
    var i := 0;
    while i < |ops|
      invariant 0 <= i <= |ops|
      invariant g == GeneratedOf(ops[..i])
    {
      GeneratedSnoc(ops, i);
      g := PushOp(g, ops[i]);
      i := i + 1;
    }
    assert ops[..i] == ops;
  }

  /** An op without arguments has length `0`, and an op with arguments never does: each length is `1`, `4` or a sizeof. */
  lemma ArgsLengthZero(args: seq<Arg>)
    ensures ArgsLength(args) == "0" <==> args == []
  {
    if args != [] {
      var parts := Map(ArgLengthOf, args);
      MapAt(ArgLengthOf, args);
      JoinFirst(parts, " + ");
      assert parts[0][0] != '0';
    }
  }

  /** A join starts with the first part's first character. */
  lemma {:induction false} JoinFirst(parts: seq<string>, sep: string)
    requires parts != [] && parts[0] != []
    ensures Join(parts, sep) != [] && Join(parts, sep)[0] == parts[0][0]
  {
    if |parts| > 1 {
      JoinFirst(parts[..|parts| - 1], sep);
    }
  }

  /** An op without a cost estimate gets the item cost 4294967295, which reads back as UINT32_MAX. */
  lemma DefaultCostText(op: Op)
    requires op.costEstimate.None?
    ensures CostOf(op) == 0xFFFF_FFFF
    ensures ParseDigits(IntText(CostOf(op)), 10) == 4294967295
  {
    IntTextParses(CostOf(op));
  }

  /** One item, writer, spewer and clone per op, the k-th of each made from the k-th op. */
  lemma GeneratedPerOp(ops: seq<Op>)
    ensures |GeneratedOf(ops).opsItems| == |GeneratedOf(ops).writerMethods| == |ops|
    ensures |GeneratedOf(ops).spewerMethods| == |GeneratedOf(ops).cloneMethods| == |ops|
    ensures forall k :: 0 <= k < |ops| ==>
              GeneratedOf(ops).opsItems[k] == OpItem(ops[k]) && GeneratedOf(ops).writerMethods[k] == OpWriterText(ops[k])
    ensures forall k :: 0 <= k < |ops| ==>
              GeneratedOf(ops).spewerMethods[k] == OpSpewerText(ops[k]) && GeneratedOf(ops).cloneMethods[k] == OpCloneText(ops[k])
  {
    MapAt(OpItem, ops);
    MapAt(OpWriterText, ops);
    MapAt(OpSpewerText, ops);
    MapAt(OpCloneText, ops);
  }

  /**
   * Every op's compiler text sits among the shared methods if the op is
   * shared and among the unshared ones otherwise, so the two lists together
   * have one entry per op.
   */
  lemma GeneratedCompilerLists(ops: seq<Op>)
    ensures |GeneratedOf(ops).compilerSharedMethods| + |GeneratedOf(ops).compilerUnsharedMethods| == |ops|
    ensures forall k :: 0 <= k < |ops| && ops[k].shared ==> OpCompilerText(ops[k]) in GeneratedOf(ops).compilerSharedMethods
    ensures forall k :: 0 <= k < |ops| && !ops[k].shared ==> OpCompilerText(ops[k]) in GeneratedOf(ops).compilerUnsharedMethods
  {
    var isShared: Op -> bool, isUnshared: Op -> bool, compiler: Op -> string := IsShared, IsUnshared, OpCompilerText;
    var g := GeneratedOf(ops);
    assert g.compilerSharedMethods == KeepMap(isShared, compiler, ops);
    assert g.compilerUnsharedMethods == KeepMap(isUnshared, compiler, ops);
    KeepMapMembers(isShared, compiler, ops);
    KeepMapMembers(isUnshared, compiler, ops);
    SharedSplit(ops);
    forall k | 0 <= k < |ops|
      ensures ops[k].shared ==> OpCompilerText(ops[k]) in g.compilerSharedMethods
      ensures !ops[k].shared ==> OpCompilerText(ops[k]) in g.compilerUnsharedMethods
    {
      assert isShared(ops[k]) == ops[k].shared && isUnshared(ops[k]) == !ops[k].shared;
    }
  }

  /** The transpiler has one method and one op item per transpiled op, each from that op. */
  lemma GeneratedTranspilerLists(ops: seq<Op>)
    ensures |GeneratedOf(ops).transpilerMethods| == |GeneratedOf(ops).transpilerOps| == |ops| - CountDropped(IsTranspiled, ops)
    ensures forall k :: 0 <= k < |ops| && ops[k].transpile ==>
              OpCompilerText(ops[k]) in GeneratedOf(ops).transpilerMethods && TranspilerOpItem(ops[k]) in GeneratedOf(ops).transpilerOps
  {
    var isTranspiled: Op -> bool, compiler: Op -> string, opItem: Op -> string := IsTranspiled, OpCompilerText, TranspilerOpItem;
    var g := GeneratedOf(ops);
    assert g.transpilerMethods == KeepMap(isTranspiled, compiler, ops);
    assert g.transpilerOps == KeepMap(isTranspiled, opItem, ops);
    KeepMapMembers(isTranspiled, compiler, ops);
    KeepMapMembers(isTranspiled, opItem, ops);
    forall k | 0 <= k < |ops| && ops[k].transpile
      ensures OpCompilerText(ops[k]) in g.transpilerMethods && TranspilerOpItem(ops[k]) in g.transpilerOps
    {
      assert isTranspiled(ops[k]);
    }
  }

  /** Each op is dropped by exactly one of the shared and unshared filters. */
  lemma {:induction false} SharedSplit(ops: seq<Op>)
    ensures CountDropped(IsShared, ops) + CountDropped(IsUnshared, ops) == |ops|
  {
    if ops != [] {
      SharedSplit(ops[..|ops| - 1]);
    }
  }
}
