/** The writer every XML file writer of the application is built on
  * (`vtkXMLFileWriter`). libxml2's text writer is outside the model: what
  * the writer has produced is the sequence of calls it made, one `Output`
  * per call. */
module XmlWriter {
  import opened Wrappers
  import opened Text
  import opened XmlReader

  /** One call of the libxml text writer. */
  datatype Output =
    | Start(name: string)
    | Attribute(name: string, value: string)
    | Characters(text: string)
    | End

  /** The decimal text of each integer, in order. */
  function Decimals(xs: seq<int>): (r: seq<string>)
    ensures |r| == |xs| && forall i :: 0 <= i < |xs| ==> r[i] == IntToString(xs[i])
  {
    seq(|xs|, i requires 0 <= i < |xs| => IntToString(xs[i]))
  }

  /** The text `WriteTuple` writes for the values `xs`: their decimal forms
    * joined by single blanks. */
  function TupleText(xs: seq<int>): string
  {
    SpaceJoin(Decimals(xs))
  }

  /** The text of an empty tuple is empty, and otherwise neither starts nor
    * ends with a blank. */
  lemma TupleTextEnds(xs: seq<int>)
    ensures |xs| == 0 ==> TupleText(xs) == ""
    ensures |xs| > 0 ==> |TupleText(xs)| > 0 && !IsSpace(TupleText(xs)[0]) && !IsSpace(TupleText(xs)[|TupleText(xs)| - 1])
  {
    if |xs| > 0 {
      TupleTextFirst(xs);
      var w := Decimals(xs)[|xs| - 1];
      assert !IsSpace(w[|w| - 1]);
    }
  }

  lemma {:induction false} TupleTextFirst(xs: seq<int>)
    requires |xs| > 0
    ensures |TupleText(xs)| > 0 && TupleText(xs)[0] == IntToString(xs[0])[0]
  {
    SpaceJoinFirst(Decimals(xs));
  }

  lemma {:induction false} SpaceJoinFirst(words: seq<string>)
    requires |words| > 0 && forall i :: 0 <= i < |words| ==> |words[i]| > 0
    ensures |SpaceJoin(words)| > 0 && SpaceJoin(words)[0] == words[0][0]
    decreases |words|
  {
    var init := words[..|words| - 1];
    var w := words[|words| - 1];
    if |init| > 0 {
      SpaceJoinFirst(init);
      assert SpaceJoin(words) == SpaceJoin(init) + " " + w;
    } else {
      assert SpaceJoin(words) == w;
    }
  }

  /** Splitting a tuple's text on white space gives the decimal forms of its
    * values, one word per value. */
  lemma TupleTextWords(xs: seq<int>)
    ensures Words(TupleText(xs)) == Decimals(xs)
  {
    WordsOfSpaceJoin(Decimals(xs));
  }

  /** The round trip of a tuple: reading the text written for `xs` into an
    * array of at least `|xs|` slots with length `|xs|` assigns exactly `|xs|`
    * slots, slot i getting `xs[i]`. */
  lemma TupleRoundTrip(xs: seq<int>)
    ensures TupleCount(|Words(TupleText(xs))|, |xs|) == |xs|
    ensures forall i :: 0 <= i < |xs| ==> StreamInt(Words(TupleText(xs))[i]) == xs[i]
  {
    TupleTextWords(xs);
    forall i | 0 <= i < |xs|
      ensures StreamInt(Words(TupleText(xs))[i]) == xs[i]
    {
      StreamIntOfIntToString(xs[i]);
    }
  }

  /** `vtkXMLFileWriter`: the calls made on the libxml writer so far. */
  class FileWriter {
    var output: seq<Output>

    constructor()
      ensures output == []
    {
      output := [];
    }

    /** `StartElement`. */
    method StartElement(name: string)
      modifies this
      ensures output == old(output) + [Start(name)]
    {
      output := output + [Start(name)];
    }

    /** `EndElement`. */
    method EndElement()
      modifies this
      ensures output == old(output) + [End]
    {
      output := output + [End];
    }

    /** `WriteAttribute(const char*, const char*)`. */
    method WriteAttribute(name: string, value: string)
      modifies this
      ensures output == old(output) + [Attribute(name, value)]
    {
      output := output + [Attribute(name, value)];
    }

    /** `WriteAttribute<int>`: the value as decimal text. */
    method WriteIntAttribute(name: string, value: int)
      modifies this
      ensures output == old(output) + [Attribute(name, IntToString(value))]
    {
      WriteAttribute(name, IntToString(value));
    }

    /** `WriteValue(const char*, const char*)`: an element holding the text,
      * typed "string". */
    method WriteValue(name: string, value: string)
      modifies this
      ensures output == old(output) + [Start(name), Attribute("type", StringTypeName), Characters(value), End]
    {
      StartElement(name);
      WriteAttribute("type", StringTypeName);
      output := output + [Characters(value)];
      EndElement();
    }

    /** `WriteValue<int>`: an element holding the decimal text of the value,
      * typed "int" when `typed`. */
    method WriteIntValue(name: string, value: int, typed: bool)
      modifies this
      ensures output == old(output) + [Start(name)] + (if typed then [Attribute("type", IntTypeName)] else [])
        + [Characters(IntToString(value)), End]
    {
      StartElement(name);
      if typed {
        WriteAttribute("type", IntTypeName);
      }
      output := output + [Characters(IntToString(value))];
      EndElement();
    }

    /** `WriteTuple<int>`: an element typed after the first value, with the
      * given length, holding the first `length` values as `TupleText`. The
      * first value is read even when `length` is 0, so the array must have
      * one. */
    method WriteTuple(name: string, a: array<int>, length: int)
      requires 0 < a.Length && length <= a.Length
      modifies this
      ensures output == old(output) +
        [Start(name), Attribute("type", IntTypeName), Attribute("length", IntToString(length)),
         Characters(TupleText(a[..if length < 0 then 0 else length])), End]
    {
      StartElement(name);
      WriteAttribute("type", IntTypeName);
      WriteIntAttribute("length", length);
      var text := TupleLoop(a, length);
      output := output + [Characters(text)];
      EndElement();
    }
  }

  /** The loop of `WriteTuple`: appends each value's decimal text, preceded
    * by a blank unless the text is still empty. */
  method TupleLoop(a: array<int>, length: int) returns (text: string)
    requires length <= a.Length
    ensures text == TupleText(a[..if length < 0 then 0 else length])
  {
    text := "";
    var i := 0;
    while i < length
      invariant 0 <= i <= a.Length && (i <= length || i == 0)
      invariant text == SpaceJoin(Decimals(a[..i]))
    {
      assert Decimals(a[..i + 1])[..i] == Decimals(a[..i]);
      if 0 < |text| {
        text := text + " ";
      }
      text := text + IntToString(a[i]);
      i := i + 1;
    }
  }
}
