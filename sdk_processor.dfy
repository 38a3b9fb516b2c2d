/**
 * The binding-configuration reader of the SDK annotation processor
 * (build/annotationProcessors/SDKProcessor.java): the INI-like class list,
 * per-class member annotations, and the annotation lookup with its options.
 *
 * Strings follow java.lang.String: `trim` drops characters up to U+0020 at
 * both ends, `split(sep, 2)` cuts at the first separator only, and
 * `split(sep)` cuts at every separator and drops trailing empty parts.
 * Reading the file and the reflection on the SDK classes are not modelled:
 * the lines of the file and the member's name, signature and kind are inputs.
 */
module SDKProcessor {
  import opened Wrappers

  // ---------------------------------------------------------------------------
  // java.lang.String

  /** A character trim() removes. */
  predicate IsSpace(c: char) { c <= ' ' }

  function TrimLeft(s: string): (r: string)
    ensures |r| <= |s|
    ensures r == [] || !IsSpace(r[0])
  {
    if s != [] && IsSpace(s[0]) then TrimLeft(s[1..]) else s
  }

  function TrimRight(s: string): (r: string)
    ensures |r| <= |s|
    ensures r == [] || !IsSpace(r[|r| - 1])
  {
    if s != [] && IsSpace(s[|s| - 1]) then TrimRight(s[..|s| - 1]) else s
  }

  /** TrimRight keeps a prefix. */
  lemma {:induction false} TrimRightPrefix(s: string)
    ensures TrimRight(s) == s[..|TrimRight(s)|]
  {
    if s != [] && IsSpace(s[|s| - 1]) {
      TrimRightPrefix(s[..|s| - 1]);
    }
  }

  /** A string with no space at either end. */
  predicate IsTrimmed(s: string)
  {
    s == [] || (!IsSpace(s[0]) && !IsSpace(s[|s| - 1]))
  }

  /** String.trim(). */
  function Trim(s: string): (r: string)
    ensures IsTrimmed(r) && |r| <= |s|
  {
    TrimRightPrefix(TrimLeft(s));
    TrimRight(TrimLeft(s))
  }

  /** A trimmed string is its own trim. */
  lemma TrimTrimmed(s: string)
    requires IsTrimmed(s)
    ensures Trim(s) == s
  {
  }

  /** The position of the first occurrence of c. */
  function IndexOf(s: string, c: char): (i: nat)
    requires c in s
    ensures i < |s| && s[i] == c && c !in s[..i]
  {
    if s[0] == c then 0 else 1 + IndexOf(s[1..], c)
  }

  /** split(sep, 2): the text before the first separator and everything after it, or the whole text when there is none. */
  function SplitFirst(s: string, sep: char): (r: seq<string>)
    ensures 1 <= |r| <= 2
    ensures |r| == 1 ==> r[0] == s
  {
    if sep !in s then [s]
    else
      var i := IndexOf(s, sep);
      [s[..i], s[i + 1..]]
  }

  /** split(sep, 2) cuts exactly when the separator occurs, at its first occurrence, and loses only that separator. */
  lemma SplitFirstParts(s: string, sep: char)
    ensures var r := SplitFirst(s, sep);
            && (|r| == 1 <==> sep !in s)
            && (|r| == 2 ==> sep !in r[0] && s == r[0] + [sep] + r[1])
  {
    if sep in s {
      var i := IndexOf(s, sep);
      assert s == s[..i] + [sep] + s[i + 1..];
    }
  }

  /** The pieces between separators, trailing empty pieces included. */
  function SplitAll(s: string, sep: char): (r: seq<string>)
    ensures |r| >= 1
    decreases |s|
  {
    if sep !in s then [s]
    else
      var i := IndexOf(s, sep);
      [s[..i]] + SplitAll(s[i + 1..], sep)
  }

  function DropTrailingEmpty(parts: seq<string>): (r: seq<string>)
    ensures |r| <= |parts| && r == parts[..|r|]
    ensures r == [] || r[|r| - 1] != []
  {
    if parts != [] && parts[|parts| - 1] == [] then DropTrailingEmpty(parts[..|parts| - 1]) else parts
  }

  /** split(sep): every piece, with trailing empty pieces dropped unless there was no separator at all. */
  function Split(s: string, sep: char): seq<string>
  {
    if sep !in s then [s] else DropTrailingEmpty(SplitAll(s, sep))
  }

  /** Splitting a separator-free piece followed by the separator peels that piece off. */
  lemma SplitAllCons(a: string, sep: char, b: string)
    requires sep !in a
    ensures SplitAll(a + [sep] + b, sep) == [a] + SplitAll(b, sep)
  {
    var s := a + [sep] + b;
    assert s[|a|] == sep;
    var i := IndexOf(s, sep);
    assert i == |a|;
    assert s[..i] == a;
    assert s[i + 1..] == b;
  }

  /** Boolean.valueOf: "true" in any letter case. */
  predicate ParseBoolean(s: string)
  {
    |s| == 4 && s[0] in "tT" && s[1] in "rR" && s[2] in "uU" && s[3] in "eE"
  }

  // ---------------------------------------------------------------------------
  // Annotations

  /** What the generator is told about one member; the enumerations keep the option text as given. */
  datatype AnnotationInfo = AnnotationInfo(stubName: string, exceptionMode: string, callingThread: string,
                                           dispatchTarget: string, noLiteral: bool)

  /** The kind of a reflected member. */
  datatype MemberKind = ConstructorMember | FieldMember | MethodMember

  /** A reflected member: its name, JNI signature, kind, and the native name derived from it. */
  datatype Member = Member(name: string, signature: string, kind: MemberKind, nativeName: string)

  /** The generic key of a member kind: "<constructor>", "<field>" or "<method>". */
  function KindKey(k: MemberKind): string
  {
    match k
    case ConstructorMember => "<constructor>"
    case FieldMember => "<field>"
    case MethodMember => "<method>"
  }

  /** The key with the signature: fields put a ':' between name and signature. */
  function SignatureKey(m: Member): string
  {
    m.name + (if m.kind == FieldMember then ":" else "") + m.signature
  }

  /** The info used when no option applies: the native name, ABORT, ANY, CURRENT, literals allowed. */
  function DefaultInfo(m: Member): AnnotationInfo
  {
    AnnotationInfo(m.nativeName, "ABORT", "ANY", "CURRENT", false)
  }

  /** The options an annotation element may set. */
  datatype OptionKind = Skip | StubName | ExceptionMode | CalledFrom | DispatchTo | NoLiteral

  /** The option a trimmed name denotes, if any. */
  function OptionKindOf(name: string): Option<OptionKind>
  {
    if name == "skip" then Some(Skip)
    else if name == "stubName" then Some(StubName)
    else if name == "exceptionMode" then Some(ExceptionMode)
    else if name == "calledFrom" then Some(CalledFrom)
    else if name == "dispatchTo" then Some(DispatchTo)
    else if name == "noLiteral" then Some(NoLiteral)
    else None
  }

  /** The key of each option. */
  function OptionName(k: OptionKind): string
  {
    match k
    case Skip => "skip"
    case StubName => "stubName"
    case ExceptionMode => "exceptionMode"
    case CalledFrom => "calledFrom"
    case DispatchTo => "dispatchTo"
    case NoLiteral => "noLiteral"
  }

  /** Each option key denotes its option back, is trimmed and holds no ':' or ','. */
  lemma OptionNameKey(k: OptionKind)
    ensures var name := OptionName(k);
            OptionKindOf(name) == Some(k) && name != [] && IsTrimmed(name) && ':' !in name && ',' !in name
  {
  }

  /** One element split at its first ':' into a known option and its trimmed value. */
  function ParseOption(element: string): (r: Result<(OptionKind, string)>)
    ensures r.Ok? ==> IsTrimmed(r.value.1)
  {
    var pair := SplitFirst(element, ':');
    if |pair| < 2 then Err("Missing option value: " + element)
    else
      var name := Trim(pair[0]);
      match OptionKindOf(name)
      case None => Err("Unknown option: " + name)
      case Some(k) => Ok((k, Trim(pair[1])))
  }

  /** The info with one option set; `skip` sets nothing. */
  function SetOption(info: AnnotationInfo, k: OptionKind, value: string): AnnotationInfo
  {
    match k
    case Skip => info
    case StubName => info.(stubName := value)
    case ExceptionMode => info.(exceptionMode := value)
    case CalledFrom => info.(callingThread := value)
    case DispatchTo => info.(dispatchTarget := value)
    case NoLiteral => info.(noLiteral := ParseBoolean(value))
  }

  /**
   * Applies the options in order.  A `skip` that parses as true ends with
   * no info (the member is skipped); an element without ':' and an unknown
   * option are errors, and so is `stubName` in a generic entry.
   */
  function ApplyOptions(elements: seq<string>, isGeneric: bool, info: AnnotationInfo): (r: Result<Option<AnnotationInfo>>)
    decreases |elements|
  {
    if elements == [] then Ok(Some(info))
    else
      match ParseOption(elements[0])
      case Err(e) => Err(e)
      case Ok((k, value)) =>
        if k == Skip && ParseBoolean(value) then Ok(None)
        else if k == StubName && isGeneric then Err("stubName doesn't make sense here: " + value)
        else ApplyOptions(elements[1..], isGeneric, SetOption(info, k, value))
  }

  /** The options from position i on: the element there decides, as in the first step of ApplyOptions. */
  lemma ApplyAt(elements: seq<string>, i: nat, isGeneric: bool, info: AnnotationInfo)
    requires i < |elements|
    ensures ApplyOptions(elements[i..], isGeneric, info) ==
              match ParseOption(elements[i])
              case Err(e) => Err(e)
              case Ok((k, value)) =>
                if k == Skip && ParseBoolean(value) then Ok(None)
                else if k == StubName && isGeneric then Err("stubName doesn't make sense here: " + value)
                else ApplyOptions(elements[i + 1..], isGeneric, SetOption(info, k, value))
  {
    assert elements[i..][0] == elements[i] && elements[i..][1..] == elements[i + 1..];
  }

  /** An option that neither skips nor fails hands the updated info to the rest of the elements. */
  lemma ApplyStep(elements: seq<string>, i: nat, isGeneric: bool, info: AnnotationInfo, k: OptionKind, value: string)
    requires i < |elements| && ParseOption(elements[i]) == Ok((k, value))
    requires !(k == Skip && ParseBoolean(value)) && !(k == StubName && isGeneric)
    ensures ApplyOptions(elements[i..], isGeneric, info) == ApplyOptions(elements[i + 1..], isGeneric, SetOption(info, k, value))
  {
    assert elements[i..][0] == elements[i] && elements[i..][1..] == elements[i + 1..];
  }

  /** The value of a class, as far as lookups see it. */
  datatype ClassValue = ClassValue(name: string, defaultAnnotation: Option<string>, annotations: map<string, string>)

  /** Where a member's annotation text comes from, and whether that entry is generic. */
  function Lookup(c: ClassValue, m: Member): (r: (Option<string>, bool))
    ensures SignatureKey(m) in c.annotations ==> r == (Some(c.annotations[SignatureKey(m)]), false)
    ensures SignatureKey(m) !in c.annotations && m.name in c.annotations ==> r == (Some(c.annotations[m.name]), false)
    ensures SignatureKey(m) !in c.annotations && m.name !in c.annotations ==> r.1
    ensures SignatureKey(m) !in c.annotations && m.name !in c.annotations && KindKey(m.kind) in c.annotations
            ==> r == (Some(c.annotations[KindKey(m.kind)]), true)
    ensures SignatureKey(m) !in c.annotations && m.name !in c.annotations && KindKey(m.kind) !in c.annotations
            ==> r.0 == c.defaultAnnotation
  {
    if SignatureKey(m) in c.annotations then (Some(c.annotations[SignatureKey(m)]), false)
    else if m.name in c.annotations then (Some(c.annotations[m.name]), false)
    else if KindKey(m.kind) in c.annotations then (Some(c.annotations[KindKey(m.kind)]), true)
    else (c.defaultAnnotation, true)
  }

  /** getAnnotationInfo on a class value: the default info for no or empty text, otherwise the options applied. */
  function AnnotationFor(c: ClassValue, m: Member): Result<Option<AnnotationInfo>>
  {
    var (annotation, isGeneric) := Lookup(c, m);
    if annotation.None? || annotation.value == "" then Ok(Some(DefaultInfo(m)))
    else ApplyOptions(Split(annotation.value, ','), isGeneric, DefaultInfo(m))
  }

  /** Reading one rendered option gives the option and its value back. */
  lemma OptionPair(k: OptionKind, value: string)
    requires IsTrimmed(value)
    ensures ParseOption(OptionName(k) + ":" + value) == Ok((k, value))
  {
    var name := OptionName(k);
    var s := name + ":" + value;
    var pair := SplitFirst(s, ':');
    OptionNameKey(k);
    assert s[|name|] == ':';
    assert pair[0] == name;
    assert pair[1] == value;
    TrimTrimmed(name);
    TrimTrimmed(value);
  }

  /** One option that neither skips nor fails moves on with the info updated. */
  lemma ApplyOne(k: OptionKind, value: string, rest: seq<string>, isGeneric: bool, info: AnnotationInfo)
    requires IsTrimmed(value) && k != Skip && !(k == StubName && isGeneric)
    ensures ApplyOptions([OptionName(k) + ":" + value] + rest, isGeneric, info)
            == ApplyOptions(rest, isGeneric, SetOption(info, k, value))
  {
    OptionPair(k, value);
    assert ([OptionName(k) + ":" + value] + rest)[1..] == rest;
  }

  /** Option values that survive the reader: trimmed and free of commas. */
  predicate CleanValue(s: string)
  {
    IsTrimmed(s) && ',' !in s
  }

  /** The pieces joined with the separator between them. */
  function Join(parts: seq<string>, sep: char): string
    requires |parts| >= 1
  {
    if |parts| == 1 then parts[0] else parts[0] + [sep] + Join(parts[1..], sep)
  }

  /** Splitting joined separator-free pieces gives the pieces back. */
  lemma {:induction false} SplitAllJoin(parts: seq<string>, sep: char)
    requires |parts| >= 1 && forall k :: 0 <= k < |parts| ==> sep !in parts[k]
    ensures SplitAll(Join(parts, sep), sep) == parts
  {
    if |parts| > 1 {
      SplitAllJoin(parts[1..], sep);
      SplitAllCons(parts[0], sep, Join(parts[1..], sep));
      assert parts == [parts[0]] + parts[1..];
    }
  }

  /** split() inverts the join when the last piece is not empty. */
  lemma SplitJoin(parts: seq<string>, sep: char)
    requires |parts| >= 1 && forall k :: 0 <= k < |parts| ==> sep !in parts[k]
    requires parts[|parts| - 1] != []
    ensures Split(Join(parts, sep), sep) == parts
  {
    SplitAllJoin(parts, sep);
    if |parts| > 1 {
      assert Join(parts, sep)[|parts[0]|] == sep;
    }
  }

  /** One option as the text `name:value`. */
  function Element(k: OptionKind, value: string): string
  {
    OptionName(k) + ":" + value
  }

  /** The elements for a list of options and their values, in order. */
  function Texts(pairs: seq<(OptionKind, string)>): (r: seq<string>)
    ensures |r| == |pairs|
    ensures forall i :: 0 <= i < |pairs| ==> r[i] == Element(pairs[i].0, pairs[i].1)
  {
    if pairs == [] then [] else [Element(pairs[0].0, pairs[0].1)] + Texts(pairs[1..])
  }

  /** The info after setting each option of the list in order. */
  function SetAll(pairs: seq<(OptionKind, string)>, info: AnnotationInfo): AnnotationInfo
  {
    if pairs == [] then info else SetAll(pairs[1..], SetOption(info, pairs[0].0, pairs[0].1))
  }

  /**
   * Options that neither skip nor fail, with trimmed values, are applied one
   * after the other: reading their elements sets each of them in order.
   */
  lemma {:induction false} ApplyPairs(pairs: seq<(OptionKind, string)>, isGeneric: bool, info: AnnotationInfo)
    requires forall i :: 0 <= i < |pairs| ==>
               pairs[i].0 != Skip && !(pairs[i].0 == StubName && isGeneric) && IsTrimmed(pairs[i].1)
    ensures ApplyOptions(Texts(pairs), isGeneric, info) == Ok(Some(SetAll(pairs, info)))
  {
    if pairs != [] {
      var (k, value) := pairs[0];
      ApplyOne(k, value, Texts(pairs[1..]), isGeneric, info);
      assert Texts(pairs) == [OptionName(k) + ":" + value] + Texts(pairs[1..]);
      ApplyPairs(pairs[1..], isGeneric, SetOption(info, k, value));
    }
  }

  /** The text noLiteral is rendered as. */
  function BoolText(b: bool): (t: string)
    ensures ParseBoolean(t) == b && CleanValue(t)
  {
    if b then "true" else "false"
  }

  /** Every option other than skip, with the value the info holds for it. */
  function Pairs(info: AnnotationInfo): seq<(OptionKind, string)>
  {
    [(StubName, info.stubName), (ExceptionMode, info.exceptionMode), (CalledFrom, info.callingThread),
     (DispatchTo, info.dispatchTarget), (NoLiteral, BoolText(info.noLiteral))]
  }

  /** The option text that states an info in full. */
  function Render(info: AnnotationInfo): string
  {
    Join(Texts(Pairs(info)), ',')
  }

  /** An element with a clean value holds no comma and is not empty. */
  lemma ElementClean(k: OptionKind, value: string)
    requires CleanValue(value)
    ensures ',' !in Element(k, value) && Element(k, value) != []
  {
    OptionNameKey(k);
  }

  /** The elements hold no comma, and the last one is not empty. */
  lemma ElementsSplittable(info: AnnotationInfo)
    requires CleanValue(info.stubName) && CleanValue(info.exceptionMode)
    requires CleanValue(info.callingThread) && CleanValue(info.dispatchTarget)
    ensures var es := Texts(Pairs(info));
            (forall k :: 0 <= k < |es| ==> ',' !in es[k]) && es[|es| - 1] != []
  {
    ElementClean(StubName, info.stubName);
    ElementClean(ExceptionMode, info.exceptionMode);
    ElementClean(CalledFrom, info.callingThread);
    ElementClean(DispatchTo, info.dispatchTarget);
    ElementClean(NoLiteral, BoolText(info.noLiteral));
  }

  /** Every option of the full list may be applied in a non-generic entry. */
  lemma PairsApplicable(info: AnnotationInfo)
    requires IsTrimmed(info.stubName) && IsTrimmed(info.exceptionMode)
    requires IsTrimmed(info.callingThread) && IsTrimmed(info.dispatchTarget)
    ensures var ps := Pairs(info);
            forall i :: 0 <= i < |ps| ==> ps[i].0 != Skip && IsTrimmed(ps[i].1)
  {
  }

  /** Setting every option of an info, in order, gives that info whatever the defaults. */
  lemma SetAllPairs(info: AnnotationInfo, d: AnnotationInfo)
    ensures SetAll(Pairs(info), d) == info
  {
    var ps := Pairs(info);
    var d1 := SetOption(d, StubName, info.stubName);
    var d2 := SetOption(d1, ExceptionMode, info.exceptionMode);
    var d3 := SetOption(d2, CalledFrom, info.callingThread);
    var d4 := SetOption(d3, DispatchTo, info.dispatchTarget);
    var d5 := SetOption(d4, NoLiteral, BoolText(info.noLiteral));
    assert SetAll(ps[4..], d4) == SetAll([], d5);
    assert SetAll(ps[3..], d3) == SetAll(ps[4..], d4);
    assert SetAll(ps[2..], d2) == SetAll(ps[3..], d3);
    assert SetAll(ps[1..], d1) == SetAll(ps[2..], d2);
  }

  /**
   * A non-generic entry holding the rendered text of an info yields exactly
   * that info, whatever the member's defaults.
   */
  lemma RenderRoundTrip(info: AnnotationInfo, m: Member)
    requires CleanValue(info.stubName) && CleanValue(info.exceptionMode)
    requires CleanValue(info.callingThread) && CleanValue(info.dispatchTarget)
    ensures ApplyOptions(Split(Render(info), ','), false, DefaultInfo(m)) == Ok(Some(info))
  {
    ElementsSplittable(info);
    SplitJoin(Texts(Pairs(info)), ',');
    PairsApplicable(info);
    ApplyPairs(Pairs(info), false, DefaultInfo(m));
    SetAllPairs(info, DefaultInfo(m));
  }

  /** A skip option that reads as true, first in the list, skips the member whatever follows. */
  lemma SkipFirst(value: string, rest: seq<string>, isGeneric: bool, info: AnnotationInfo)
    requires IsTrimmed(value) && ParseBoolean(value)
    ensures ApplyOptions([Element(Skip, value)] + rest, isGeneric, info) == Ok(None)
  {
    OptionPair(Skip, value);
  }

  /** stubName in a generic entry is an error. */
  lemma GenericStubName(value: string, rest: seq<string>, info: AnnotationInfo)
    requires IsTrimmed(value)
    ensures ApplyOptions([Element(StubName, value)] + rest, true, info) == Err("stubName doesn't make sense here: " + value)
  {
    OptionPair(StubName, value);
  }

  // ---------------------------------------------------------------------------
  // The class list

  /** A class's section text: the name before the first '=', and the class default after it. */
  function SectionValue(text: string): (c: ClassValue)
    ensures c.annotations == map[] && IsTrimmed(c.name)
  {
    var mapping := SplitFirst(text, '=');
    ClassValue(Trim(mapping[0]), if |mapping| > 1 then Some(Trim(mapping[1])) else None, map[])
  }

  /** addAnnotation on a class value. */
  function AddAnnotationValue(c: ClassValue, text: string): Result<ClassValue>
  {
    var mapping := SplitFirst(text, '=');
    var prop := Trim(mapping[0]);
    if prop == [] then Err("Missing member name: " + text)
    else if |mapping| < 2 then Err("Missing equal sign: " + text)
    else if prop in c.annotations then Err("Already has member: " + prop)
    else Ok(c.(annotations := c.annotations[prop := Trim(mapping[1])]))
  }

  /** A section without '=' names the whole trimmed text and has no class default. */
  lemma SectionWithoutDefault(text: string)
    requires '=' !in text
    ensures SectionValue(text) == ClassValue(Trim(text), None, map[])
  {
    SplitFirstParts(text, '=');
  }

  /**
   * addAnnotation succeeds exactly when the member name before the first
   * '=' is not empty once trimmed, there is an '=', and the member is not
   * annotated yet; it then adds that one member and changes nothing else.
   */
  lemma AddAnnotationSpec(c: ClassValue, text: string)
    ensures var r := AddAnnotationValue(c, text);
            var prop := Trim(SplitFirst(text, '=')[0]);
            && (r.Ok? <==> prop != [] && '=' in text && prop !in c.annotations)
            && (r.Ok? ==> r.value.name == c.name && r.value.defaultAnnotation == c.defaultAnnotation
                          && r.value.annotations.Keys == c.annotations.Keys + {prop}
                          && r.value.annotations[prop] == Trim(SplitFirst(text, '=')[1]))
  {
    SplitFirstParts(text, '=');
  }

  /** A line the reader skips: blank, or a comment starting with ';' or '#' once trimmed. */
  predicate Ignorable(line: string)
  {
    var t := Trim(line);
    t == [] || t[0] == ';' || t[0] == '#'
  }

  /** A line that opens a section. */
  predicate IsSection(line: string)
  {
    var t := Trim(line);
    t != [] && t[0] == '['
  }

  /** One line of the reader: the classes so far, the last of them being the current class. */
  function ReadLine(classes: seq<ClassValue>, line: string): (r: Result<seq<ClassValue>>)
    ensures Ignorable(line) ==> r == Ok(classes)
    ensures r.Ok? && IsSection(line) ==> |r.value| == |classes| + 1 && r.value[..|classes|] == classes
    ensures r.Ok? && !IsSection(line) ==> |r.value| == |classes|
  {
    var t := Trim(line);
    if t == [] || t[0] == ';' || t[0] == '#' then Ok(classes)
    else if t[0] == '[' then
      if t[|t| - 1] != ']' then Err("Missing trailing ']': " + t)
      else Ok(classes + [SectionValue(t[1..|t| - 1])])
    else if classes == [] then Err("Missing class: " + t)
    else
      match AddAnnotationValue(classes[|classes| - 1], t)
      case Err(e) => Err(e)
      case Ok(c) => Ok(classes[..|classes| - 1] + [c])
  }

  /** The reader's step on one line, case by case on the trimmed line. */
  lemma ReadLineCases(classes: seq<ClassValue>, line: string)
    ensures var t := Trim(line);
            && (t == [] || t[0] == ';' || t[0] == '#' ==> ReadLine(classes, line) == Ok(classes))
            && (t != [] && t[0] == '[' && t[|t| - 1] != ']' ==> ReadLine(classes, line) == Err("Missing trailing ']': " + t))
            && (t != [] && t[0] == '[' && t[|t| - 1] == ']' ==> ReadLine(classes, line) == Ok(classes + [SectionValue(t[1..|t| - 1])]))
            && (t != [] && t[0] !in ";#[" && classes == [] ==> ReadLine(classes, line) == Err("Missing class: " + t))
            && (t != [] && t[0] !in ";#[" && classes != [] ==>
                  var step := AddAnnotationValue(classes[|classes| - 1], t);
                  ReadLine(classes, line) == if step.Ok? then Ok(classes[..|classes| - 1] + [step.value]) else Err(step.error))
  {
  }

  /** The reader from a given state over the remaining lines. */
  function ReadLines(classes: seq<ClassValue>, lines: seq<string>): Result<seq<ClassValue>>
    decreases |lines|
  {
    if lines == [] then Ok(classes)
    else match ReadLine(classes, lines[0])
      case Err(e) => Err(e)
      case Ok(next) => ReadLines(next, lines[1..])
  }

  /** getClassList on the file's lines: the classes in file order, or the first error. */
  function ClassList(lines: seq<string>): Result<seq<ClassValue>>
  {
    match ReadLines([], lines)
    case Err(e) => Err(e)
    case Ok(classes) => if classes == [] then Err("No class found in config file") else Ok(classes)
  }

  /** The number of section lines. */
  function Sections(lines: seq<string>): nat
  {
    if lines == [] then 0 else (if IsSection(lines[0]) then 1 else 0) + Sections(lines[1..])
  }

  /** Reading adds one class per section line, in file order, after the classes already there. */
  lemma {:induction false} ReadLinesSections(classes: seq<ClassValue>, lines: seq<string>)
    ensures var r := ReadLines(classes, lines);
            r.Ok? ==> |r.value| == |classes| + Sections(lines)
    decreases |lines|
  {
    if lines != [] {
      var step := ReadLine(classes, lines[0]);
      if step.Ok? {
        ReadLinesSections(step.value, lines[1..]);
      }
    }
  }

  /** One line of the reader at position i. */
  lemma ReadLinesStep(classes: seq<ClassValue>, lines: seq<string>, i: nat)
    requires i < |lines|
    ensures ReadLines(classes, lines[i..]) == match ReadLine(classes, lines[i])
                                             case Err(e) => Err(e)
                                             case Ok(next) => ReadLines(next, lines[i + 1..])
  {
    assert lines[i..][0] == lines[i] && lines[i..][1..] == lines[i + 1..];
  }

  /** The list has one class per section line, and a file without sections is an error. */
  lemma ClassListSections(lines: seq<string>)
    ensures var r := ClassList(lines);
            (r.Ok? ==> |r.value| == Sections(lines) > 0)
            && (Sections(lines) == 0 ==> r.Err?)
  {
    ReadLinesSections([], lines);
  }

  /** Blank and comment lines can be inserted anywhere without changing what is read. */
  lemma {:induction false} IgnorableLineInvisible(classes: seq<ClassValue>, a: seq<string>, line: string, b: seq<string>)
    requires Ignorable(line)
    ensures ReadLines(classes, a + [line] + b) == ReadLines(classes, a + b)
    decreases |a|
  {
    if a == [] {
      assert a + [line] + b == [line] + b;
      assert ([line] + b)[1..] == b;
      assert a + b == b;
    } else {
      assert (a + [line] + b)[0] == a[0] && (a + b)[0] == a[0];
      assert (a + [line] + b)[1..] == a[1..] + [line] + b;
      assert (a + b)[1..] == a[1..] + b;
      var step := ReadLine(classes, a[0]);
      if step.Ok? {
        IgnorableLineInvisible(step.value, a[1..], line, b);
      }
    }
  }

  /** A member line before any section is an error naming that line. */
  lemma MemberBeforeSection(line: string, rest: seq<string>)
    requires !Ignorable(line) && !IsSection(line)
    ensures ClassList([line] + rest) == Err("Missing class: " + Trim(line))
  {
    assert ([line] + rest)[0] == line;
  }

  // ---------------------------------------------------------------------------
  // ClassInfo and the reader loop

  class ClassInfo {
    const name: string
    var annotations: map<string, string>
    const defaultAnnotation: Option<string>

    /** The class as a value. */
    function Value(): ClassValue
      reads this
    {
      ClassValue(name, defaultAnnotation, annotations)
    }

    /** ClassInfo(text): the name before the first '=', trimmed; the class default after it, trimmed, if there is one. */
    constructor (text: string)
      ensures Value() == SectionValue(text)
    {
      var mapping := SplitFirst(text, '=');
      name := Trim(mapping[0]);
      defaultAnnotation := if |mapping| > 1 then Some(Trim(mapping[1])) else None;
      annotations := map[];
    }

    /**
     * addAnnotation: an empty member name, a missing '=' and a member
     * already annotated are errors that leave the class as it was;
     * otherwise the trimmed value is stored under the trimmed name.
     */
    method AddAnnotation(text: string) returns (err: Option<string>)
      modifies this`annotations
      ensures var r := AddAnnotationValue(old(Value()), text);
              (err.None? <==> r.Ok?) && (r.Ok? ==> Value() == r.value)
              && (r.Err? ==> err == Some(r.error) && annotations == old(annotations))
    {
      var mapping := SplitFirst(text, '=');
      var prop := Trim(mapping[0]);
      if prop == [] {
        return Some("Missing member name: " + text);
      }
      if |mapping| < 2 {
        return Some("Missing equal sign: " + text);
      }
      if prop in annotations {
        return Some("Already has member: " + prop);
      }
      annotations := annotations[prop := Trim(mapping[1])];
      return None;
    }

    /** The lookup part of getAnnotationInfo: by signature, by name, by kind (generic), then the class default. */
    method FindAnnotation(m: Member) returns (annotation: Option<string>, isGeneric: bool)
      ensures (annotation, isGeneric) == Lookup(Value(), m)
    {
      isGeneric := false;
      var key := m.name + (if m.kind == FieldMember then ":" else "") + m.signature;
      annotation := if key in annotations then Some(annotations[key]) else None;
      if annotation.None? {
        annotation := if m.name in annotations then Some(annotations[m.name]) else None;
      }
      if annotation.None? {
        annotation := if KindKey(m.kind) in annotations then Some(annotations[KindKey(m.kind)]) else None;
        isGeneric := true;
      }
      if annotation.None? {
        annotation := defaultAnnotation;
      }
    }

    /**
     * getAnnotationInfo: looks the member up by signature, by name, by kind,
     * then takes the class default; no or empty text gives the default
     * info, otherwise the comma-separated options are applied in order.
     * No info means the member is skipped.
     */
    method GetAnnotationInfo(m: Member) returns (r: Result<Option<AnnotationInfo>>)
      ensures r == AnnotationFor(Value(), m)
    {
      var info := DefaultInfo(m);
      var annotation, isGeneric := FindAnnotation(m);
      if annotation.None? || annotation.value == "" {
        return Ok(Some(info));
      }
      r := ApplyAnnotationOptions(Split(annotation.value, ','), isGeneric, info);
    }
  }

  /**
   * The option loop of getAnnotationInfo: each element is split at its
   * first ':' into a known option and its value; skip=true ends with no
   * info, stubName in a generic entry and a malformed or unknown option
   * are errors, and every other option updates the info.
   */
  method ApplyAnnotationOptions(elements: seq<string>, isGeneric: bool, defaults: AnnotationInfo)
    returns (r: Result<Option<AnnotationInfo>>)
    ensures r == ApplyOptions(elements, isGeneric, defaults)
  {
    var info := defaults;
    ghost var total := ApplyOptions(elements, isGeneric, info);
    var i := 0;
    while i < |elements|
      invariant 0 <= i <= |elements|
      invariant ApplyOptions(elements[i..], isGeneric, info) == total
    {
      var parsed := ParseOption(elements[i]);
      if parsed.Err? {
        assert total == Err(parsed.error) by { ApplyAt(elements, i, isGeneric, info); }
        return Err(parsed.error);
      }
      var (kind, value) := parsed.value;
      if kind == Skip && ParseBoolean(value) {
        assert total == Ok(None) by { ApplyAt(elements, i, isGeneric, info); }
        return Ok(None);
      }
      if kind == StubName && isGeneric {
        assert total == Err("stubName doesn't make sense here: " + value) by { ApplyAt(elements, i, isGeneric, info); }
        return Err("stubName doesn't make sense here: " + value);
      }
      ApplyStep(elements, i, isGeneric, info, kind, value);
      info := SetOption(info, kind, value);
      i := i + 1;
    }
    assert elements[i..] == [];
    return Ok(Some(info));
  }

  /** Each class object holds the corresponding class value. */
  ghost predicate Holds(cs: seq<ClassInfo>, vs: seq<ClassValue>)
    reads set c | c in cs
  {
    |cs| == |vs| && forall k :: 0 <= k < |cs| ==> cs[k].Value() == vs[k]
  }

  /** The current class is the last one read, and no earlier entry is the same object. */
  predicate CurrentIsLast(classes: seq<ClassInfo>, current: ClassInfo?)
  {
    && (current == null <==> classes == [])
    && (current != null ==> current == classes[|classes| - 1])
    && (forall k :: 0 <= k < |classes| - 1 ==> classes[k] != current)
  }

  /** Opens a new class after the given ones. */
  method OpenClass(classes: seq<ClassInfo>, ghost vals: seq<ClassValue>, text: string)
    returns (grown: seq<ClassInfo>, c: ClassInfo)
    requires Holds(classes, vals)
    ensures fresh(c) && grown == classes + [c]
    ensures Holds(grown, vals + [SectionValue(text)])
  {
    c := new ClassInfo(text);
    grown := classes + [c];
    forall k | 0 <= k < |grown|
      ensures grown[k].Value() == (vals + [SectionValue(text)])[k]
    {
      if k < |classes| {
        assert grown[k] == classes[k];
      }
    }
  }

  /** Annotates the last of the given classes, the current one. */
  method AnnotateLast(classes: seq<ClassInfo>, ghost vals: seq<ClassValue>, text: string)
    returns (err: Option<string>)
    requires classes != [] && Holds(classes, vals)
    requires forall k :: 0 <= k < |classes| - 1 ==> classes[k] != classes[|classes| - 1]
    modifies classes[|classes| - 1]
    ensures var step := AddAnnotationValue(vals[|vals| - 1], text);
            (err.None? <==> step.Ok?) && (step.Err? ==> err == Some(step.error))
            && (step.Ok? ==> Holds(classes, vals[..|vals| - 1] + [step.value]))
  {
    ghost var step := AddAnnotationValue(vals[|vals| - 1], text);
    err := classes[|classes| - 1].AddAnnotation(text);
    if err.None? {
      forall k | 0 <= k < |classes|
        ensures classes[k].Value() == (vals[..|vals| - 1] + [step.value])[k]
      {
        if k < |classes| - 1 {
          assert classes[k] != classes[|classes| - 1];
          assert classes[k].Value() == old(classes[k].Value()) == vals[k];
          assert (vals[..|vals| - 1] + [step.value])[k] == vals[k];
        } else {
          assert (vals[..|vals| - 1] + [step.value])[k] == step.value;
        }
      }
    }
  }

  /** The reader loop's body on one line: its effect on the class objects is the reader's step on their values. */
  method ReadInto(classes: seq<ClassInfo>, current: ClassInfo?, ghost vals: seq<ClassValue>, raw: string)
    returns (classes': seq<ClassInfo>, current': ClassInfo?, ghost vals': seq<ClassValue>, err: Option<string>)
    requires Holds(classes, vals) && CurrentIsLast(classes, current)
    modifies if current == null then {} else {current}
    ensures var step := ReadLine(vals, raw);
            && (step.Err? ==> err == Some(step.error))
            && (step.Ok? ==> err.None? && vals' == step.value)
    ensures err.None? ==>
              && Holds(classes', vals') && CurrentIsLast(classes', current')
              && (current' == current || fresh(current'))
  {
    classes', current', vals', err := classes, current, vals, None;
    var line := Trim(raw);
    if line == [] || line[0] == ';' || line[0] == '#' {
      assert ReadLine(vals, raw) == Ok(vals) by { ReadLineCases(vals, raw); }
      return;
    }
    if line[0] == '[' {
      if line[|line| - 1] != ']' {
        assert ReadLine(vals, raw) == Err("Missing trailing ']': " + line) by { ReadLineCases(vals, raw); }
        return classes, current, vals, Some("Missing trailing ']': " + line);
      }
      vals' := vals + [SectionValue(line[1..|line| - 1])];
      assert ReadLine(vals, raw) == Ok(vals') by { ReadLineCases(vals, raw); }
      classes', current' := OpenClass(classes, vals, line[1..|line| - 1]);
      forall k | 0 <= k < |classes'| - 1
        ensures classes'[k] != current'
      {
        assert classes'[k] == classes[k];
      }
    } else {
      if current == null {
        assert ReadLine(vals, raw) == Err("Missing class: " + line) by { ReadLineCases(vals, raw); }
        return classes, current, vals, Some("Missing class: " + line);
      }
      ghost var step := AddAnnotationValue(vals[|vals| - 1], line);
      assert ReadLine(vals, raw) == if step.Ok? then Ok(vals[..|vals| - 1] + [step.value]) else Err(step.error) by {
        ReadLineCases(vals, raw);
      }
      err := AnnotateLast(classes, vals, line);
      if err.None? {
        vals' := vals[..|vals| - 1] + [step.value];
      }
    }
  }

  /**
   * getClassList: reads the lines in order, skipping blank and comment
   * lines, opening a class at each section line and annotating the
   * current class with every other line; the first error ends the read.
   */
  method GetClassList(lines: seq<string>) returns (r: Result<seq<ClassInfo>>)
    ensures ClassList(lines).Err? ==> r == Err(ClassList(lines).error)
    ensures ClassList(lines).Ok? ==> r.Ok? && Holds(r.value, ClassList(lines).value)
  {
    var classes: seq<ClassInfo> := [];
    ghost var vals: seq<ClassValue> := [];
    var currentClass: ClassInfo? := null;
    ghost var total := ReadLines([], lines);
    var i := 0;
    while i < |lines|
      invariant 0 <= i <= |lines|
      invariant currentClass != null ==> fresh(currentClass)
      invariant Holds(classes, vals) && CurrentIsLast(classes, currentClass)
      invariant ReadLines(vals, lines[i..]) == total
    {
      ReadLinesStep(vals, lines, i);
      var err;
      classes, currentClass, vals, err := ReadInto(classes, currentClass, vals, lines[i]);
      if err.Some? {
        return Err(err.value);
      }
      i := i + 1;
    }
    assert total == Ok(vals);
    if classes == [] {
      return Err("No class found in config file");
    }
    return Ok(classes);
  }
}
