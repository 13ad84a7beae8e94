/** The application's settings file (`Birch::Configuration`) and the reader
  * that parses it (`vtkXMLConfigurationFileReader`). The file holds one
  * element named Configuration (in any letter case); each element inside it
  * with a name is a category, and each element inside a category is a key
  * whose text is the value. The result is a map category -> key -> value.
  *
  * The reader's parse is specified by pure functions over the file's events
  * (`FindFrom`, `CategoryFrom`, `BodyFrom`, `ReadFile`), and the reader's
  * nested loops are proved to compute them. */
module Configuration {
  import opened Wrappers
  import opened Text
  import opened XmlReader
  import opened Database

  type Category = map<string, string>
  type Settings = map<string, Category>

  const NoConfiguration := "File does not contain a Configuration element."

  /** What libstdc++ throws when a `std::string` is made from a null
    * pointer: the name of the node closing a category when the file ends
    * inside that category. */
  const NullName := "basic_string: construction from null is not valid"

  /** What the reader rethrows after any failure once the file is open:
    * `throw e` on a `std::exception&` copies only the base class, whose
    * message is its type name. */
  const SlicedException := "std::exception"

  /** The element that starts the settings: its name equals
    * "Configuration" up to letter case (`xmlStrcasecmp`). */
  predicate IsConfiguration(n: Node)
  {
    n.nodeType == TypeElement && n.name.Some? && EqualsIgnoringCase("Configuration", n.name.value)
  }

  /** A node that opens a category: an element with a non-empty name
    * (`xmlStrlen` of a null name is 0). */
  predicate OpensCategory(n: Node)
  {
    n.nodeType == TypeElement && n.name.Some? && |n.name.value| > 0
  }

  /** The node that ends a scan at depth `d`: an end element at that depth. */
  predicate Closes(n: Node, d: int)
  {
    n.nodeType == TypeEndElement && n.depth == d
  }

  // ---------------------------------------------------------------------
  // The parse, as functions of the file's events

  /** The search for the Configuration element from event `pos` on: the
    * position just after it, a parse error met first, or the end of the
    * file without one. */
  function FindFrom(ev: seq<Event>, pos: nat): (r: Result<nat>)
    requires pos <= |ev|
    ensures r.Ok? ==> pos < r.value <= |ev| && ev[r.value - 1].Parsed? && IsConfiguration(ev[r.value - 1].node)
    ensures r.Ok? ==> forall i :: pos <= i < r.value - 1 ==> ev[i].Parsed? && !IsConfiguration(ev[i].node)
    ensures r == Err(NoConfiguration) <==> forall i :: pos <= i < |ev| ==> ev[i].Parsed? && !IsConfiguration(ev[i].node)
    ensures r.Err? && r.msg != NoConfiguration ==> r.msg == "Parse error."
    decreases |ev| - pos
  {
    if pos == |ev| then Err(NoConfiguration)
    else match ev[pos]
      case ParseError => Err("Parse error.")
      case Parsed(n, _) => if IsConfiguration(n) then Ok(pos + 1) else FindFrom(ev, pos + 1)
  }

  /** Where a category scan stopped, the node it stopped at (cleared at the
    * end of the file) and the keys it collected. */
  datatype Closed = Closed(pos: nat, closing: Node, category: Category)

  /** The scan of one category's keys from event `pos` on, with the keys
    * collected so far in `m`: it stops at the end element one level below
    * the Configuration element (depth `d`), or at the end of the file; each
    * element met is a key whose value is its text, the first occurrence of
    * a key winning. */
  function CategoryFrom(ev: seq<Event>, pos: nat, d: int, m: Category): (r: Result<Closed>)
    requires pos <= |ev|
    ensures r.Ok? ==> pos <= r.value.pos <= |ev|
    ensures r.Ok? ==> m.Keys <= r.value.category.Keys && forall k :: k in m ==> r.value.category[k] == m[k]
    ensures r.Ok? ==>
      (r.value.pos == |ev| && r.value.closing == Cleared) ||
      (pos < r.value.pos && ev[r.value.pos - 1].Parsed? && ev[r.value.pos - 1].node == r.value.closing &&
       Closes(r.value.closing, d + 1))
    decreases |ev| - pos
  {
    if pos == |ev| then Ok(Closed(pos, Cleared, m))
    else match ev[pos]
      case ParseError => Err("Parse error.")
      case Parsed(n, t) =>
        if Closes(n, d + 1) then Ok(Closed(pos + 1, n, m))
        else if n.nodeType == TypeElement then
          if t.None? then Err("Failed to read " + StringTypeName)
          else if n.name.None? then Err(NullName)
          else CategoryFrom(ev, pos + 1, d, InsertNew(m, n.name.value, t.value))
        else CategoryFrom(ev, pos + 1, d, m)
  }

  /** The scan of the Configuration element's content from event `pos` on,
    * with the settings so far in `s`: it stops at the end element at the
    * Configuration element's depth `d`, or at the end of the file. Each
    * category is stored under the name of the node that closed its scan,
    * unless a category of that name is already stored. The settings are
    * returned also on failure: categories stored before it stay. */
  function BodyFrom(ev: seq<Event>, pos: nat, d: int, s: Settings): (r: (Result<()>, Settings))
    requires pos <= |ev|
    ensures s.Keys <= r.1.Keys && forall k :: k in s ==> r.1[k] == s[k]
    decreases |ev| - pos
  {
    if pos == |ev| then (Ok(()), s)
    else match ev[pos]
      case ParseError => (Err("Parse error."), s)
      case Parsed(n, _) =>
        if Closes(n, d) then (Ok(()), s)
        else if OpensCategory(n) then
          match CategoryFrom(ev, pos + 1, d, map[])
          case Err(e) => (Err(e), s)
          case Ok(c) =>
            if c.closing.name.None? then (Err(NullName), s)
            else BodyFrom(ev, c.pos, d, InsertNew(s, c.closing.name.value, c.category))
        else BodyFrom(ev, pos + 1, d, s)
  }

  /** The whole parse of an opened file onto the settings `s`. */
  function ParseEvents(ev: seq<Event>, s: Settings): (r: (Result<()>, Settings))
  {
    match FindFrom(ev, 0)
    case Err(e) => (Err(e), s)
    case Ok(p) => BodyFrom(ev, p, ev[p - 1].node.depth, s)
  }

  /** The outcome of the reader's REQUEST_DATA pass over `file` with the
    * settings `s` it already holds. A file that cannot be opened ends with
    * the error of closing a reader that was never opened; any later error
    * reaches the caller as a bare `std::exception`. */
  function ReadFile(file: Option<seq<Event>>, s: Settings): (r: (Result<()>, Settings))
    ensures r.0.Err? <==> file.None? || ParseEvents(file.value, s).0.Err?
    ensures file.None? ==> r == (Err("No file opened."), s)
    ensures s.Keys <= r.1.Keys && forall k :: k in s ==> r.1[k] == s[k]
  {
    match file
    case None => (Err("No file opened."), s)
    case Some(ev) =>
      var (res, s') := ParseEvents(ev, s);
      (if res.Ok? then Ok(()) else Err(SlicedException), s')
  }

  // ---------------------------------------------------------------------
  // Properties of the parse

  /** A file without a Configuration element, and without parse errors,
    * fails and adds nothing. */
  lemma NoConfigurationFails(ev: seq<Event>, s: Settings)
    requires forall i :: 0 <= i < |ev| ==> ev[i].Parsed? && !IsConfiguration(ev[i].node)
    ensures ParseEvents(ev, s) == (Err(NoConfiguration), s)
  {
  }

  /** Every element met in a category scan, up to where the scan stopped,
    * is a key of the category. */
  lemma {:induction false} CategoryHoldsElements(ev: seq<Event>, pos: nat, d: int, m: Category, i: int)
    requires pos <= |ev|
    requires CategoryFrom(ev, pos, d, m).Ok?
    requires pos <= i < CategoryFrom(ev, pos, d, m).value.pos
    requires ev[i].Parsed? && ev[i].node.nodeType == TypeElement
    ensures ev[i].node.name.Some? && ev[i].node.name.value in CategoryFrom(ev, pos, d, m).value.category
    decreases |ev| - pos
  {
    var Parsed(n, t) := ev[pos];
    if i == pos {
      assert !Closes(n, d + 1);
    } else if !Closes(n, d + 1) {
      if n.nodeType == TypeElement {
        CategoryHoldsElements(ev, pos + 1, d, InsertNew(m, n.name.value, t.value), i);
      } else {
        CategoryHoldsElements(ev, pos + 1, d, m, i);
      }
    }
  }

  /** Every key a category scan adds is the name of an element met in the
    * scan, with that element's text as its value. */
  lemma {:induction false} CategoryKeysFromElements(ev: seq<Event>, pos: nat, d: int, m: Category, k: string)
    requires pos <= |ev|
    requires CategoryFrom(ev, pos, d, m).Ok?
    requires k in CategoryFrom(ev, pos, d, m).value.category && k !in m
    ensures exists i ::
      && pos <= i < CategoryFrom(ev, pos, d, m).value.pos
      && ev[i].Parsed? && ev[i].node.nodeType == TypeElement && ev[i].node.name == Some(k)
      && ev[i].text == Some(CategoryFrom(ev, pos, d, m).value.category[k])
    decreases |ev| - pos
  {
    var r := CategoryFrom(ev, pos, d, m).value;
    var Parsed(n, t) := ev[pos];
    if Closes(n, d + 1) {
      assert false;
    } else if n.nodeType == TypeElement {
      var m' := InsertNew(m, n.name.value, t.value);
      if k == n.name.value {
        assert r.category[k] == m'[k] == t.value;
      } else {
        CategoryKeysFromElements(ev, pos + 1, d, m', k);
      }
    } else {
      CategoryKeysFromElements(ev, pos + 1, d, m, k);
    }
  }

  /** Whether the body scan from `pos` reads the node at event `i` itself
    * (rather than inside a category): every node up to the closing end
    * element, skipping each category it scans in full. */
  predicate BodyReads(ev: seq<Event>, pos: nat, d: int, i: int)
    requires pos <= |ev|
    ensures BodyReads(ev, pos, d, i) ==> pos <= i < |ev|
    decreases |ev| - pos
  {
    pos < |ev| &&
    (i == pos ||
     (ev[pos].Parsed? && !Closes(ev[pos].node, d) &&
      if OpensCategory(ev[pos].node) then
        var c := CategoryFrom(ev, pos + 1, d, map[]);
        c.Ok? && c.value.closing.name.Some? && BodyReads(ev, c.value.pos, d, i)
      else BodyReads(ev, pos + 1, d, i)))
  }

  /** The category scanned from the element at event `i` closes with an
    * element named `k` and holds the keys `c`. */
  predicate ScansCategory(ev: seq<Event>, d: int, i: int, k: string, c: Category)
  {
    && 0 <= i < |ev| && ev[i].Parsed? && OpensCategory(ev[i].node)
    && CategoryFrom(ev, i + 1, d, map[]).Ok?
    && Closes(CategoryFrom(ev, i + 1, d, map[]).value.closing, d + 1)
    && CategoryFrom(ev, i + 1, d, map[]).value.closing.name == Some(k)
    && CategoryFrom(ev, i + 1, d, map[]).value.category == c
  }

  /** Every category the body scan adds was scanned from an element the
    * body read, is stored under the name of the end element that closed
    * that scan, and holds that scan's keys. */
  lemma {:induction false} BodyCategoriesFromScans(ev: seq<Event>, pos: nat, d: int, s: Settings, k: string)
    requires pos <= |ev|
    requires k in BodyFrom(ev, pos, d, s).1 && k !in s
    ensures exists i :: BodyReads(ev, pos, d, i) && ScansCategory(ev, d, i, k, BodyFrom(ev, pos, d, s).1[k])
    decreases |ev| - pos
  {
    var r := BodyFrom(ev, pos, d, s).1;
    var Parsed(n, _) := ev[pos];
    if OpensCategory(n) {
      var c := CategoryFrom(ev, pos + 1, d, map[]).value;
      var s' := InsertNew(s, c.closing.name.value, c.category);
      if k == c.closing.name.value {
        assert r[k] == s'[k] == c.category;
        assert BodyReads(ev, pos, d, pos) && ScansCategory(ev, d, pos, k, r[k]);
      } else {
        BodyCategoriesFromScans(ev, c.pos, d, s', k);
        var i :| BodyReads(ev, c.pos, d, i) && ScansCategory(ev, d, i, k, r[k]);
        assert BodyReads(ev, pos, d, i);
      }
    } else {
      BodyCategoriesFromScans(ev, pos + 1, d, s, k);
      var i :| BodyReads(ev, pos + 1, d, i) && ScansCategory(ev, d, i, k, r[k]);
      assert BodyReads(ev, pos, d, i);
    }
  }

  /** Conversely, when the body scan succeeds, every category element it
    * reads is scanned to an end element whose name is stored. */
  lemma {:induction false} BodyStoresEveryScan(ev: seq<Event>, pos: nat, d: int, s: Settings, i: int)
    requires pos <= |ev|
    requires BodyFrom(ev, pos, d, s).0.Ok?
    requires BodyReads(ev, pos, d, i) && ev[i].Parsed? && OpensCategory(ev[i].node)
    ensures CategoryFrom(ev, i + 1, d, map[]).Ok?
    ensures var c := CategoryFrom(ev, i + 1, d, map[]).value;
      Closes(c.closing, d + 1) && c.closing.name.Some? && c.closing.name.value in BodyFrom(ev, pos, d, s).1
    decreases |ev| - pos
  {
    var Parsed(n, _) := ev[pos];
    if i == pos {
      var c := CategoryFrom(ev, pos + 1, d, map[]).value;
      assert c.closing.name.Some?;
      var s' := InsertNew(s, c.closing.name.value, c.category);
      assert c.closing.name.value in s';
    } else if OpensCategory(n) {
      var c := CategoryFrom(ev, pos + 1, d, map[]).value;
      BodyStoresEveryScan(ev, c.pos, d, InsertNew(s, c.closing.name.value, c.category), i);
    } else {
      BodyStoresEveryScan(ev, pos + 1, d, s, i);
    }
  }

  /** A small well-formed file: one category `Path` with one key. */
  const SampleFile: seq<Event> := [
    Parsed(Node(Some("Configuration"), 0, 0, TypeElement, 0, 0, None), None),
    Parsed(Node(Some("Path"), 1, 0, TypeElement, 0, 0, None), None),
    Parsed(Node(Some("ImageData"), 2, 0, TypeElement, 0, 0, None), Some("/data")),
    Parsed(Node(Some("#text"), 3, 0, TypeText, 0, 1, Some("/data")), Some("/data")),
    Parsed(Node(Some("ImageData"), 2, 0, TypeEndElement, 0, 0, None), None),
    Parsed(Node(Some("Path"), 1, 0, TypeEndElement, 0, 0, None), None),
    Parsed(Node(Some("Configuration"), 0, 0, TypeEndElement, 0, 0, None), None)
  ]

  /** Parsing the sample file onto empty settings gives the one category
    * with its one key. */
  lemma SampleFileSettings()
    ensures ReadFile(Some(SampleFile), map[]) == (Ok(()), map["Path" := map["ImageData" := "/data"]])
  {
    var ev := SampleFile;
    assert FindFrom(ev, 0) == Ok(1);
    var m := map["ImageData" := "/data"];
    assert CategoryFrom(ev, 5, 0, m) == Ok(Closed(6, ev[5].node, m));
    assert CategoryFrom(ev, 4, 0, m) == CategoryFrom(ev, 5, 0, m);
    assert CategoryFrom(ev, 3, 0, m) == CategoryFrom(ev, 4, 0, m);
    assert CategoryFrom(ev, 2, 0, map[]) == CategoryFrom(ev, 3, 0, m);
    var s := map["Path" := m];
    assert BodyFrom(ev, 6, 0, s) == (Ok(()), s);
    assert BodyFrom(ev, 1, 0, map[]) == BodyFrom(ev, 6, 0, s);
  }

  // ---------------------------------------------------------------------
  // The reader

  /** `vtkXMLConfigurationFileReader`: the file reader it extends and the
    * settings it has collected. The settings are never cleared, so a later
    * file adds to what earlier ones stored. */
  class ConfigurationFileReader {
    const file: FileReader
    var settings: Settings

    constructor()
      ensures fresh(file) && !file.open && settings == map[]
    {
      file := new FileReader();
      settings := map[];
    }

    /** The first loop of REQUEST_DATA: reads nodes until the Configuration
      * element, and fails when the file ends without one. */
    method FindConfiguration() returns (r: Result<()>)
      requires file.open && file.pos <= |file.events|
      modifies file`pos, file`current, file`text
      ensures file.pos <= |file.events|
      ensures var spec := FindFrom(file.events, old(file.pos));
        (r.Ok? <==> spec.Ok?) && (r.Err? ==> r.msg == spec.msg) &&
        (r.Ok? ==> file.pos == spec.value && file.current == file.events[spec.value - 1].node)
    {
      ghost var ev := file.events;
      ghost var start := file.pos;
      while true
        invariant file.pos <= |ev|
        invariant FindFrom(ev, file.pos) == FindFrom(ev, start)
        decreases |ev| - file.pos
      {
        ghost var p := file.pos;
        var more := file.ParseNode();
        if more.Err? {
          return Err(more.msg);
        }
        if !more.value || IsConfiguration(file.current) {
          break;
        }
      }
      if !IsConfiguration(file.current) {
        return Err(NoConfiguration);
      }
      r := Ok(());
    }

    /** The inner loop of REQUEST_DATA: collects the keys of one category
      * until the end element one level below depth `d`. */
    method ReadCategory(d: int) returns (r: Result<Category>)
      requires file.open && file.pos <= |file.events|
      modifies file`pos, file`current, file`text
      ensures file.pos <= |file.events|
      ensures var spec := CategoryFrom(file.events, old(file.pos), d, map[]);
        (r.Ok? <==> spec.Ok?) && (r.Err? ==> r.msg == spec.msg) &&
        (r.Ok? ==> r.value == spec.value.category && file.pos == spec.value.pos && file.current == spec.value.closing)
    {
      ghost var ev := file.events;
      ghost var start := file.pos;
      var m: Category := map[];
      while true
        invariant file.pos <= |ev|
        invariant CategoryFrom(ev, file.pos, d, m) == CategoryFrom(ev, start, d, map[])
        decreases |ev| - file.pos
      {
        var more := file.ParseNode();
        if more.Err? {
          return Err(more.msg);
        }
        if !more.value || Closes(file.current, d + 1) {
          break;
        }
        if file.current.nodeType == TypeElement {
          var str := file.ReadValue();
          if str.Err? {
            return Err(str.msg);
          }
          if file.current.name.None? {
            return Err(NullName);
          }
          m := InsertNew(m, file.current.name.value, str.value);
        }
      }
      r := Ok(m);
    }

    /** The outer loop of REQUEST_DATA: reads categories until the end
      * element at the Configuration element's depth `d`, storing each. */
    method ReadBody(d: int) returns (r: Result<()>)
      requires file.open && file.pos <= |file.events|
      modifies this`settings, file`pos, file`current, file`text
      ensures var spec := BodyFrom(file.events, old(file.pos), d, old(settings));
        r == spec.0 && settings == spec.1
    {
      ghost var ev := file.events;
      ghost var start := file.pos;
      while true
        invariant file.pos <= |ev|
        invariant BodyFrom(ev, file.pos, d, settings) == BodyFrom(ev, start, d, old(settings))
        decreases |ev| - file.pos
      {
        var more := file.ParseNode();
        if more.Err? {
          return Err(more.msg);
        }
        if !more.value || Closes(file.current, d) {
          break;
        }
        if OpensCategory(file.current) {
          var category := ReadCategory(d);
          if category.Err? {
            return Err(category.msg);
          }
          if file.current.name.None? {
            return Err(NullName);
          }
          settings := InsertNew(settings, file.current.name.value, category.value);
        }
      }
      r := Ok(());
    }

    /** REQUEST_DATA of `ProcessRequest`: opens `source`, parses it into the
      * settings and closes it again. On failure the reader is closed and
      * the error passed on; categories stored before the failure stay. */
    method Update(source: Option<seq<Event>>) returns (r: Result<()>)
      modifies this`settings, file
      ensures (r, settings) == ReadFile(source, old(settings))
      ensures !file.open
    {
      var created := file.CreateReader(source);
      if created.Err? {
        var closed := file.FreeReader();
        return Err(closed.msg);
      }
      var found := FindConfiguration();
      if found.Err? {
        var _ := file.FreeReader();
        return Err(SlicedException);
      }
      var depth := file.current.depth;
      var body := ReadBody(depth);
      var _ := file.FreeReader();
      if body.Err? {
        return Err(SlicedException);
      }
      r := Ok(());
    }
  }

  /** `Birch::Configuration`: the settings in use and the reader that
    * fills them. */
  class Configuration {
    const reader: ConfigurationFileReader
    var settings: Settings

    constructor()
      ensures fresh(reader) && fresh(reader.file)
      ensures settings == map[] && reader.settings == map[] && !reader.file.open
    {
      reader := new ConfigurationFileReader();
      settings := map[];
    }

    /** `Read`: parses `source`; on success the settings become the
      * reader's, on failure they stay as they were and false is returned. */
    method Read(source: Option<seq<Event>>) returns (success: bool)
      modifies this`settings, reader, reader.file
      ensures var spec := ReadFile(source, old(reader.settings));
        success == spec.0.Ok? && reader.settings == spec.1 &&
        settings == if success then spec.1 else old(settings)
    {
      var r := reader.Update(source);
      if r.Err? {
        return false;
      }
      settings := reader.settings;
      success := true;
    }

    /** `GetValue`: the value of `key` in `category`, or "" when the category
      * or the key within it is missing. */
    function GetValue(category: string, key: string): (v: string)
      reads this
      ensures category in settings && key in settings[category] ==> v == settings[category][key]
      ensures category !in settings ==> v == ""
      ensures category in settings && key !in settings[category] ==> v == ""
    {
      if category in settings && key in settings[category] then settings[category][key] else ""
    }
  }
}
