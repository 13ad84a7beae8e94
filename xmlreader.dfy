/** The pull reader every XML file reader of the application is built on
  * (`vtkXMLFileReader`). libxml2's text reader is outside the model: an
  * opened file is the sequence of what successive `xmlTextReaderRead` calls
  * report, one `Event` per call, where an event is either a node (with the
  * text `xmlTextReaderReadString` would give at that node) or a parse error.
  * A file that cannot be opened is `None`. */
module XmlReader {
  import opened Wrappers
  import opened Text

  // libxml2's `xmlReaderTypes`, the codes `xmlTextReaderNodeType` reports.
  const TypeNone := 0
  const TypeElement := 1
  const TypeAttribute := 2
  const TypeText := 3
  const TypeCData := 4
  const TypeEntityReference := 5
  const TypeEntity := 6
  const TypeProcessingInstruction := 7
  const TypeComment := 8
  const TypeDocument := 9
  const TypeDocumentType := 10
  const TypeDocumentFragment := 11
  const TypeNotation := 12
  const TypeWhitespace := 13
  const TypeSignificantWhitespace := 14
  const TypeEndElement := 15
  const TypeEndEntity := 16
  const TypeXmlDeclaration := 17

  /** `vtkXMLFileReaderNode`: what the reader reports about its current
    * node. A null `xmlChar*` is `None`. */
  datatype Node = Node(
    name: Option<string>,
    depth: int,
    attributeCount: int,
    nodeType: int,
    isEmptyElement: int,
    hasContent: int,
    content: Option<string>)

  /** The node after `vtkXMLFileReaderNode::Clear`: null name and content,
    * every number 0. */
  const Cleared: Node := Node(None, 0, 0, TypeNone, 0, 0, None)

  /** `vtkXMLFileReaderNode::GetNodeTypeName`. */
  function GetNodeTypeName(nodeType: int): (r: string)
    ensures r == "Unknown" <==> !(TypeNone <= nodeType <= TypeXmlDeclaration)
  {
    if nodeType == TypeNone then "None"
    else if nodeType == TypeElement then "Element"
    else if nodeType == TypeAttribute then "Attribute"
    else if nodeType == TypeText then "Text"
    else if nodeType == TypeCData then "CDATA"
    else if nodeType == TypeEntityReference then "EntityReference"
    else if nodeType == TypeEntity then "Entity"
    else if nodeType == TypeProcessingInstruction then "ProcessingInstruction"
    else if nodeType == TypeComment then "Comment"
    else if nodeType == TypeDocument then "Document"
    else if nodeType == TypeDocumentType then "DocumentType"
    else if nodeType == TypeDocumentFragment then "DocumentFragment"
    else if nodeType == TypeNotation then "Notation"
    else if nodeType == TypeWhitespace then "Whitespace"
    else if nodeType == TypeSignificantWhitespace then "SignificantWhitespace"
    else if nodeType == TypeEndElement then "EndElement"
    else if nodeType == TypeEndEntity then "EndEntity"
    else if nodeType == TypeXmlDeclaration then "XmlDeclaration"
    else "Unknown"
  }

  /** Distinct known node types have distinct names, so the name identifies
    * the type. */
  lemma NodeTypeNamesDistinct(t: int, u: int)
    requires TypeNone <= t <= TypeXmlDeclaration && TypeNone <= u <= TypeXmlDeclaration
    requires t != u
    ensures GetNodeTypeName(t) != GetNodeTypeName(u)
  {
  }

  /** A cleared node reports the "None" node type and has neither name nor
    * content. */
  lemma ClearedIsNone()
    ensures GetNodeTypeName(Cleared.nodeType) == "None"
    ensures Cleared.name.None? && Cleared.content.None? && Cleared.depth == 0
  {
  }

  /** One call of `xmlTextReaderRead` that does not hit the end of the file:
    * a node, or -1 for a parse error. */
  datatype Event = Parsed(node: Node, text: Option<string>) | ParseError

  /** The C++ type names `vtkVariant::GetTypeAsString` gives in the messages
    * of a failed read. */
  const StringTypeName := "string"
  const IntTypeName := "int"

  /** `vtkXMLFileReader`'s reader state: the libxml handle (`open` says
    * whether `Reader` is non-null), the file being read and how far, the
    * current node, and the string the reader would read at it. */
  class FileReader {
    var open: bool
    var events: seq<Event>
    var pos: nat
    var current: Node
    var text: Option<string>

    constructor()
      ensures !open && events == [] && pos == 0 && current == Cleared && text == None
    {
      open := false;
      events := [];
      pos := 0;
      current := Cleared;
      text := None;
    }

    /** `CreateReader`: opens the file; a file that cannot be opened leaves
      * the reader closed and fails. */
    method CreateReader(file: Option<seq<Event>>) returns (r: Result<()>)
      modifies this
      ensures r.Ok? <==> file.Some?
      ensures r.Err? ==> r.msg == "Unable to open file." && !open
      ensures r.Ok? ==> open && events == file.value && pos == 0 && current == Cleared && text == None
    {
      if file.None? {
        open := false;
        return Err("Unable to open file.");
      }
      open := true;
      events := file.value;
      pos := 0;
      current := Cleared;
      text := None;
      r := Ok(());
    }

    /** `FreeReader`: closes the file; fails when none is open. */
    method FreeReader() returns (r: Result<()>)
      modifies this`open
      ensures r.Ok? <==> old(open)
      ensures r.Err? ==> r.msg == "No file opened."
      ensures !open
    {
      if !open {
        return Err("No file opened.");
      }
      open := false;
      r := Ok(());
    }

    /** `ParseNode`: reads the next node. Returns true with the node as the
      * current one, false at the end of the file with the current node
      * cleared, and fails on a parse error or when no file is open. */
    method ParseNode() returns (r: Result<bool>)
      requires pos <= |events|
      modifies this`pos, this`current, this`text
      ensures pos <= |events|
      ensures !open ==> r == Err("No file opened.") && unchanged(this)
      ensures open && old(pos) == |events| ==>
        r == Ok(false) && pos == old(pos) && current == Cleared && text == None
      ensures open && old(pos) < |events| && events[old(pos)].ParseError? ==>
        r == Err("Parse error.") && unchanged(this)
      ensures open && old(pos) < |events| && events[old(pos)].Parsed? ==>
        r == Ok(true) && pos == old(pos) + 1 &&
        current == events[old(pos)].node && text == events[old(pos)].text
    {
      if !open {
        return Err("No file opened.");
      }
      if pos == |events| {
        current := Cleared;
        text := None;
        return Ok(false);
      }
      match events[pos]
      case ParseError =>
        r := Err("Parse error.");
      case Parsed(node, t) =>
        current := node;
        text := t;
        pos := pos + 1;
        r := Ok(true);
    }

    /** `ReadValue(std::string&)`: the text at the current node; fails when
      * libxml cannot read one. The reader does not move. */
    method ReadValue() returns (r: Result<string>)
      ensures r.Err? <==> text.None?
      ensures r.Err? ==> r.msg == "Failed to read " + StringTypeName
      ensures r.Ok? ==> r.value == text.value
    {
      if text.None? {
        return Err("Failed to read " + StringTypeName);
      }
      r := Ok(text.value);
    }

    /** `ReadValue<int>`: the text at the current node converted as
      * `vtkVariant::ToNumeric` does, by stream extraction. */
    method ReadInt() returns (r: Result<int>)
      ensures r.Err? <==> text.None?
      ensures r.Err? ==> r.msg == "Failed to read " + IntTypeName
      ensures r.Ok? ==> r.value == StreamInt(text.value)
    {
      if text.None? {
        return Err("Failed to read " + IntTypeName);
      }
      r := Ok(StreamInt(text.value));
    }

    /** `ReadTuple<int>`: splits the text at the current node into words and
      * stores the i-th word's integer in `a[i]`, for as many words as there
      * are but never at an index at or beyond `length`; the other slots keep
      * their values. Returns how many slots were assigned (the count the
      * warnings report). */
    method ReadTuple(a: array<int>, length: int) returns (r: Result<nat>)
      requires length <= a.Length
      modifies a
      ensures r.Err? <==> text.None?
      ensures r.Err? ==> r.msg == "Failed to read " + StringTypeName && a[..] == old(a[..])
      ensures r.Ok? ==> r.value == TupleCount(|Words(text.value)|, length)
      ensures r.Ok? ==> forall i :: 0 <= i < a.Length ==>
        a[i] == if i < r.value then StreamInt(Words(text.value)[i]) else old(a[i])
    {
      var s := ReadValue();
      if s.Err? {
        return Err(s.msg);
      }
      var words := Words(s.value);
      var count := 0;
      while count < |words|
        invariant 0 <= count <= |words|
        invariant count <= length || count == 0
        invariant forall i :: 0 <= i < a.Length ==>
          a[i] == if i < count then StreamInt(words[i]) else old(a[i])
      {
        if count >= length {
          break;
        }
        a[count] := StreamInt(words[count]);
        count := count + 1;
      }
      r := Ok(count);
    }
  }

  /** The number of slots `ReadTuple` fills: one per word, at most `length`. */
  function TupleCount(words: nat, length: int): (n: nat)
    ensures n <= words && n <= (if length < 0 then 0 else length)
    ensures n == words || n == (if length < 0 then 0 else length)
  {
    if length <= 0 then 0 else if words < length then words else length
  }
}
