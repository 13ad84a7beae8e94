/** The application's two registries of active-record classes
  * (`Birch::Application`): the constructor registry, class name -> factory,
  * and the class name registry, class name -> `typeid(T).name()`. Both are
  * filled once in the application's constructor with the four record
  * classes and never change afterwards, so they are constants here; a
  * factory is represented by the record type it makes. */
module Registry {
  import opened Wrappers
  import opened Text

  /** The concrete active-record classes. */
  datatype RecordType = Image | Rating | Study | User
  {
    /** `GetName()`: the class name, which is also the table name. */
    function Name(): string
    {
      match this
      case Image => "Image"
      case Rating => "Rating"
      case Study => "Study"
      case User => "User"
    }

    /** `typeid(T).name()` as the Itanium C++ ABI spells it for a class in
      * namespace `Birch`. */
    function TypeIdName(): string
    {
      match this
      case Image => "N5Birch5ImageE"
      case Rating => "N5Birch6RatingE"
      case Study => "N5Birch5StudyE"
      case User => "N5Birch4UserE"
    }
  }

  /** `ConstructorRegistry` after the application's constructor. */
  const ConstructorRegistry: map<string, RecordType> :=
    map["Image" := Image, "Rating" := Rating, "Study" := Study, "User" := User]

  /** `ClassNameRegistry` after the application's constructor. */
  const ClassNameRegistry: map<string, string> :=
    map["Image" := Image.TypeIdName(), "Rating" := Rating.TypeIdName(),
        "Study" := Study.TypeIdName(), "User" := User.TypeIdName()]

  /** Both registries hold exactly the four record classes, each under its
    * own name. */
  lemma RegistriesHoldRecordClasses()
    ensures ConstructorRegistry.Keys == ClassNameRegistry.Keys == {"Image", "Rating", "Study", "User"}
    ensures forall n :: n in ConstructorRegistry ==> ConstructorRegistry[n].Name() == n
    ensures forall n :: n in ClassNameRegistry ==> ClassNameRegistry[n] == ConstructorRegistry[n].TypeIdName()
  {
  }

  /** `Application::Create`: the record type registered under `className`;
    * fails for a name the constructor registry does not hold. */
  function Create(className: string): (r: Result<RecordType>)
    ensures r.Ok? <==> className in {"Image", "Rating", "Study", "User"}
    ensures r.Ok? ==> r.value.Name() == className
  {
    if className !in ConstructorRegistry then
      Err("Tried to create object of type \"" + className + "\" which doesn't exist in the constructor registry")
    else Ok(ConstructorRegistry[className])
  }

  /** Creating by a record type's own name gives that type. */
  lemma CreateByName(t: RecordType)
    ensures Create(t.Name()) == Ok(t)
  {
  }

  /** The first of `keys` whose registered type name is `mangled`. */
  function FirstWithValue(keys: seq<string>, names: map<string, string>, mangled: string): (r: Result<string>)
    requires forall k :: k in keys ==> k in names
    ensures r.Ok? ==> r.value in keys && names[r.value] == mangled
    ensures r.Err? <==> forall k :: k in keys ==> names[k] != mangled
  {
    if |keys| == 0 then Err("Tried to unmangle class name which isn't registered.")
    else if names[keys[0]] == mangled then Ok(keys[0])
    else FirstWithValue(keys[1..], names, mangled)
  }

  /** `Application::GetUnmangledClassName`: scans the class name registry in
    * key order and returns the first class whose type name is `mangled`. */
  method GetUnmangledClassName(mangled: string) returns (r: Result<string>)
    ensures r == FirstWithValue(SortedKeys(ClassNameRegistry.Keys), ClassNameRegistry, mangled)
    ensures r.Ok? ==> r.value in ClassNameRegistry && ClassNameRegistry[r.value] == mangled
    ensures r.Err? <==> mangled !in ClassNameRegistry.Values
  {
    var keys := SortedKeys(ClassNameRegistry.Keys);
    var i := 0;
    while i < |keys|
      invariant 0 <= i <= |keys|
      invariant FirstWithValue(keys, ClassNameRegistry, mangled) == FirstWithValue(keys[i..], ClassNameRegistry, mangled)
    {
      if ClassNameRegistry[keys[i]] == mangled {
        return Ok(keys[i]);
      }
      assert keys[i..][1..] == keys[i + 1..];
      i := i + 1;
    }
    r := Err("Tried to unmangle class name which isn't registered.");
    assert keys[i..] == [];
  }

  /** No two registered classes share a type name. */
  lemma TypeIdNamesDistinct(n: string, t: RecordType)
    requires n in ClassNameRegistry && ClassNameRegistry[n] == t.TypeIdName()
    ensures n == t.Name()
  {
    assert n == "Image" || n == "Rating" || n == "Study" || n == "User";
  }

  /** Unmangling the type name of a record class gives the class name back. */
  lemma UnmangleTypeIdName(t: RecordType)
    ensures FirstWithValue(SortedKeys(ClassNameRegistry.Keys), ClassNameRegistry, t.TypeIdName()) == Ok(t.Name())
  {
    UnmangleInAnyOrder(SortedKeys(ClassNameRegistry.Keys), t);
  }

  /** Whatever the order of the registered names, the scan finds the class
    * of a record type's type name. */
  lemma UnmangleInAnyOrder(keys: seq<string>, t: RecordType)
    requires forall k :: k in keys <==> k in ClassNameRegistry
    ensures FirstWithValue(keys, ClassNameRegistry, t.TypeIdName()) == Ok(t.Name())
  {
    assert ClassNameRegistry[t.Name()] == t.TypeIdName();
    var r := FirstWithValue(keys, ClassNameRegistry, t.TypeIdName());
    TypeIdNamesDistinct(r.value, t);
  }
}
