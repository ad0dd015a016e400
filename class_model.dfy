/**
 * `Class.h` and the non-rendering parts of `Class.cpp`: the `Field`,
 * `Method` and `Class` records that `defineClass` fills in and
 * `resolveClass` links.
 */
module ClassModel {
  import opened Wrappers
  import opened Bytes
  import opened Constants
  import Classfile

  /** `Method::ExceptionHandler`, in constructor order. */
  datatype ExceptionHandler = ExceptionHandler(start: u16, end: u16, handler: u16, catchType: u16)

  /** `Method::LineNumber`: a code offset and the source line it starts. */
  datatype LineNumber = LineNumber(start: u16, line: u16)

  /** Everything a `Method` holds, as one value. */
  datatype MethodInfo = MethodInfo(
    name: string,
    signature: string,
    flags: bv16,
    maxStack: u16,
    maxLocals: u16,
    isDeprecated: bool,
    code: seq<byte>,
    exceptionTable: seq<ExceptionHandler>,
    lineNumberTable: seq<LineNumber>)

  /** A method as its constructor leaves it: the strings copied, everything else zero or empty. */
  function NewMethodInfo(name: seq<byte>, signature: seq<byte>, flags: bv16): MethodInfo
  {
    MethodInfo(Chars(CStr(name)), Chars(CStr(signature)), flags, 0, 0, false, [], [], [])
  }

  class Method {
    const name: string
    const signature: string
    const flags: bv16
    var maxStack: u16
    var maxLocals: u16
    var isDeprecated: bool
    var code: seq<byte>
    var exceptionTable: seq<ExceptionHandler>
    var lineNumberTable: seq<LineNumber>

    /** `Method(name, signature, flags)`: both names are copied out of their constants as C strings. */
    constructor (name: seq<byte>, signature: seq<byte>, flags: bv16)
      ensures this.name == Chars(CStr(name)) && this.signature == Chars(CStr(signature)) && this.flags == flags
      ensures maxStack == 0 && maxLocals == 0 && !isDeprecated
      ensures code == [] && exceptionTable == [] && lineNumberTable == []
      ensures Info() == NewMethodInfo(name, signature, flags)
    {
      this.name := Chars(CStr(name));
      this.signature := Chars(CStr(signature));
      this.flags := flags;
      maxStack, maxLocals, isDeprecated := 0, 0, false;
      code, exceptionTable, lineNumberTable := [], [], [];
    }

    function Info(): MethodInfo
      reads this
    {
      MethodInfo(name, signature, flags, maxStack, maxLocals, isDeprecated, code, exceptionTable, lineNumberTable)
    }

    /** `Method::to_s`: the name, ": ", then the signature. */
    function ToString(): (s: string)
      ensures |s| == |name| + 2 + |signature|
      ensures s[..|name|] == name && s[|name|..|name| + 2] == ": " && s[|name| + 2..] == signature
    {
      name + ": " + signature
    }
  }

  class Field {
    const thisClass: Class
    const name: Option<seq<byte>>
    const descriptor: Option<seq<byte>>
    const flags: bv16
    var attributes: seq<Classfile.AttributeHeader>

    /** `Field(thisClass, name, descriptor, flags)`: the two names stay pool references (possibly null). */
    constructor (thisClass: Class, name: Option<seq<byte>>, descriptor: Option<seq<byte>>, flags: bv16)
      ensures this.thisClass == thisClass && this.name == name && this.descriptor == descriptor
      ensures this.flags == flags && attributes == []
    {
      this.thisClass := thisClass;
      this.name := name;
      this.descriptor := descriptor;
      this.flags := flags;
      attributes := [];
    }

    /** `Field::name()`: dereferences the name constant. */
    function Name(): string
      requires name.Some?
    {
      Chars(CStr(name.value))
    }

    /** `Field::descriptor()`: dereferences the descriptor constant. */
    function Descriptor(): string
      requires descriptor.Some?
    {
      Chars(CStr(descriptor.value))
    }
  }

  /**
   * `superClass_` is a raw pointer the constructor leaves uninitialised;
   * `defineClass` sets it to null only when the class names a superclass.
   */
  datatype SuperLink = Indeterminate | Link(target: Class?)

  class Class {
    var sourceFile: string
    var major: int
    var minor: int
    var flags: bv16
    var thisClassName: string
    var thisClass: Option<Constant>
    var superClassName: string
    var superClass: SuperLink
    var interfaceIds: seq<u16>
    var interfaces: seq<Class?>
    var fields: seq<Field>
    var methods: seq<Method>
    const constantPool: ConstantPool

    /** `Class()`: version 0.0, no source file, an empty pool, and `superClass_` left indeterminate. */
    constructor ()
      ensures major == 0 && minor == 0 && sourceFile == "" && flags == 0 && !IsLoaded()
      ensures thisClassName == "" && thisClass == None && superClassName == "" && superClass == Indeterminate
      ensures interfaceIds == [] && interfaces == [] && fields == [] && methods == []
      ensures fresh(constantPool) && constantPool.slots == []
    {
      sourceFile := "";
      major, minor, flags := 0, 0, 0;
      thisClassName, thisClass := "", None;
      superClassName, superClass := "", Indeterminate;
      interfaceIds, interfaces := [], [];
      fields, methods := [], [];
      constantPool := new ConstantPool();
    }

    function Name(): string
      reads this
    {
      thisClassName
    }

    /** A class counts as loaded once a major version has been read into it. */
    predicate IsLoaded()
      reads this
    {
      major != 0
    }

    function SuperClass(): SuperLink
      reads this
    {
      superClass
    }

    /** `findMethod(name)`: the first method in declaration order with that name, or null. */
    method FindMethod(name: string) returns (m: Method?)
      ensures m == null ==> forall k :: 0 <= k < |methods| ==> methods[k].name != name
      ensures m != null ==> exists k :: 0 <= k < |methods| && methods[k] == m && m.name == name &&
                                        forall j :: 0 <= j < k ==> methods[j].name != name
    {
      var k := 0;
      while k < |methods|
        invariant 0 <= k <= |methods|
        invariant forall j :: 0 <= j < k ==> methods[j].name != name
      {
        if methods[k].name == name {
          return methods[k];
        }
        k := k + 1;
      }
      return null;
    }
  }
}
