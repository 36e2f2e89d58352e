/**
 * Validation-mode selection of the XML bean-definition reader: the mode
 * constants and their setters, DOCTYPE sniffing over the first lines of a
 * resource, the effective-mode rule, the parser-factory flags and the choice
 * between the legacy parser and the document reader when registering.
 */
module XmlBeanDefinitionReading {
  import opened Wrappers

  /** Validation is disabled. */
  const VALIDATION_NONE: int := 0
  /** The validation mode is detected from the resource. */
  const VALIDATION_AUTO: int := 1
  /** DTD validation. */
  const VALIDATION_DTD: int := 2
  /** XSD validation. */
  const VALIDATION_XSD: int := 3

  /** JAXP attribute naming the schema language used for validation. */
  const SCHEMA_LANGUAGE_ATTRIBUTE: string := "http://java.sun.com/xml/jaxp/properties/schemaLanguage"
  /** JAXP value selecting W3C XML Schema. */
  const XSD_SCHEMA_LANGUAGE: string := "http://www.w3.org/2001/XMLSchema"
  /** How many lines detection reads at most while looking for a DOCTYPE. */
  const MAX_PEEK_LINES: nat := 5
  /** The marker whose presence selects DTD validation. */
  const DOCTYPE: string := "DOCTYPE"

  /**
   * A resource as detection sees it: whether it wraps an already open stream
   * (which cannot be read twice), and the lines a fresh stream would yield.
   */
  datatype Resource = Resource(isOpen: bool, lines: seq<string>)

  datatype ReaderError =
    | OpenStream        // detection asked for on a resource with an open stream
    | IllegalArgument   // a parser class was rejected
    | NullPointer       // a null parser class reached the assignability test
    | XsdUnsupported    // the JAXP provider rejected the XSD schema-language attribute

  /** The settings a JAXP document-builder factory ends up with. */
  datatype FactoryConfig = FactoryConfig(namespaceAware: bool, validating: bool, attributes: map<string, string>)

  /** A class handed to the reader, with whether it implements the legacy parser interface. */
  datatype JavaClass = JavaClass(name: string, isParser: bool)

  /** Which path `registerBeanDefinitions` takes, with the count the document-reader path reports. */
  datatype Registration = LegacyParser(parser: JavaClass) | DocumentReader(registered: int)

  /** `pat` occurs in `s` starting at position `i`. */
  predicate OccursAt(s: string, pat: string, i: nat)
  {
    i + |pat| <= |s| && s[i..i + |pat|] == pat
  }

  /** `pat` is a substring of `s`. */
  ghost predicate Contains(s: string, pat: string)
  {
    exists i :: 0 <= i <= |s| && OccursAt(s, pat, i)
  }

  /** The search behind `IndexOf`: the first occurrence at or after `from`, or -1. */
  function IndexOfFrom(s: string, pat: string, from: nat): (k: int)
    requires from <= |s|
    ensures k == -1 || (from <= k && OccursAt(s, pat, k))
    ensures k == -1 ==> forall i :: from <= i <= |s| ==> !OccursAt(s, pat, i)
    ensures k != -1 ==> forall i :: from <= i < k ==> !OccursAt(s, pat, i)
    decreases |s| - from
  {
    if OccursAt(s, pat, from) then from
    else if from == |s| then -1
    else IndexOfFrom(s, pat, from + 1)
  }

  /** `String.indexOf(pat)`. */
  function IndexOf(s: string, pat: string): (k: int)
    ensures k == -1 <==> !Contains(s, pat)
    ensures k != -1 ==> 0 <= k && OccursAt(s, pat, k) && forall i :: 0 <= i < k ==> !OccursAt(s, pat, i)
  {
    IndexOfFrom(s, pat, 0)
  }

  /** One of the lines detection reads contains the DOCTYPE marker. */
  ghost predicate DeclaresDoctype(lines: seq<string>)
  {
    exists x :: 0 <= x < |lines| && x < MAX_PEEK_LINES && Contains(lines[x], DOCTYPE)
  }

  /** The mode detection settles on, or why it cannot run. */
  ghost function DetectedMode(resource: Resource): (r: Result<int, ReaderError>)
    ensures r.Failure? <==> resource.isOpen
    ensures r.Failure? ==> r.error == OpenStream
    ensures r.Success? ==> r.value == VALIDATION_DTD || r.value == VALIDATION_XSD
  {
    if resource.isOpen then Failure(OpenStream)
    else if DeclaresDoctype(resource.lines) then Success(VALIDATION_DTD)
    else Success(VALIDATION_XSD)
  }

  /** The lines detection can read: at most the first MAX_PEEK_LINES. */
  function Peeked(lines: seq<string>): (p: seq<string>)
    ensures |p| <= MAX_PEEK_LINES && p <= lines
    ensures |p| < MAX_PEEK_LINES ==> p == lines
    ensures DeclaresDoctype(p) <==> DeclaresDoctype(lines)
  {
    if |lines| <= MAX_PEEK_LINES then lines else lines[..MAX_PEEK_LINES]
  }

  /** Lines after the fifth never influence detection. */
  lemma {:induction false} DetectionIgnoresLaterLines(a: Resource, b: Resource)
    requires a.isOpen == b.isOpen && Peeked(a.lines) == Peeked(b.lines)
    ensures DetectedMode(a) == DetectedMode(b)
  {
  }

  /**
   * The mode a resource is validated with: a configured mode other than AUTO
   * is used as it is; AUTO defers to detection.
   */
  ghost function EffectiveMode(configured: int, resource: Resource): (r: Result<int, ReaderError>)
    ensures configured != VALIDATION_AUTO ==> r == Success(configured)
    ensures configured == VALIDATION_AUTO ==> r == DetectedMode(resource)
    ensures r.Success? ==> r.value != VALIDATION_AUTO
  {
    if configured != VALIDATION_AUTO then Success(configured) else DetectedMode(resource)
  }

  /**
   * Reads at most MAX_PEEK_LINES lines of a fresh stream, stopping at its end
   * or at the first line that contains the DOCTYPE marker.
   */
  method DetectValidationMode(resource: Resource) returns (r: Result<int, ReaderError>)
    ensures r == DetectedMode(resource)
  {
    if resource.isOpen {
      return Failure(OpenStream);
    }
    var isDtdValidated := false;
    var x := 0;
    while x < MAX_PEEK_LINES
      invariant 0 <= x <= MAX_PEEK_LINES && x <= |resource.lines|
      invariant !isDtdValidated
      invariant forall i :: 0 <= i < x ==> IndexOf(resource.lines[i], DOCTYPE) == -1
    {
      if x == |resource.lines| {
        // end of stream
        break;
      }
      var line := resource.lines[x];
      if IndexOf(line, DOCTYPE) > -1 {
        isDtdValidated := true;
        break;
      }
      x := x + 1;
    }
    if !isDtdValidated {
      assert forall i :: 0 <= i < |resource.lines| && i < MAX_PEEK_LINES ==> !Contains(resource.lines[i], DOCTYPE);
    }
    r := Success(if isDtdValidated then VALIDATION_DTD else VALIDATION_XSD);
  }

  /** A factory as `DocumentBuilderFactory.newInstance` returns it. */
  const DefaultFactory: FactoryConfig := FactoryConfig(false, false, map[])

  class XmlBeanDefinitionReader {
    var namespaceAware: bool
    var validationMode: int
    var parserClass: Option<JavaClass>

    /** No parser class can ever be set (see `SetParserClass`). */
    ghost predicate Valid()
      reads this
    {
      parserClass.None?
    }

    constructor ()
      ensures Valid()
      ensures !namespaceAware && validationMode == VALIDATION_AUTO && parserClass == None
    {
      namespaceAware := false;
      validationMode := VALIDATION_AUTO;
      parserClass := None;
    }

    method SetNamespaceAware(aware: bool)
      modifies this
      ensures namespaceAware == aware
      ensures validationMode == old(validationMode) && parserClass == old(parserClass)
    {
      namespaceAware := aware;
    }

    /** The deprecated boolean switch: true means AUTO, false means NONE. */
    method SetValidating(validating: bool)
      modifies this
      ensures validationMode == if validating then VALIDATION_AUTO else VALIDATION_NONE
      ensures namespaceAware == old(namespaceAware) && parserClass == old(parserClass)
    {
      validationMode := if validating then VALIDATION_AUTO else VALIDATION_NONE;
    }

    /** Any integer is accepted; only AUTO triggers detection. */
    method SetValidationMode(mode: int)
      modifies this
      ensures validationMode == mode
      ensures namespaceAware == old(namespaceAware) && parserClass == old(parserClass)
    {
      validationMode := mode;
    }

    /**
     * The guard tests the field instead of the argument, so it rejects every
     * class while the field is unset; as the field starts unset and this is
     * its only writer, it stays unset.
     */
    method SetParserClass(c: Option<JavaClass>) returns (r: Outcome<ReaderError>)
      modifies this
      ensures old(parserClass).None? ==> r == Fail(IllegalArgument) && parserClass == None
      ensures old(parserClass).Some? && c.None? ==> r == Fail(NullPointer) && parserClass == old(parserClass)
      ensures old(parserClass).Some? && c.Some? ==>
        if c.value.isParser then r == Pass && parserClass == c
        else r == Fail(IllegalArgument) && parserClass == old(parserClass)
      ensures old(Valid()) ==> Valid()
      ensures namespaceAware == old(namespaceAware) && validationMode == old(validationMode)
    {
      if parserClass.None? {
        return Fail(IllegalArgument);
      }
      if c.None? {
        // the assignability test dereferences the argument
        return Fail(NullPointer);
      }
      if !c.value.isParser {
        return Fail(IllegalArgument);
      }
      parserClass := c;
      r := Pass;
    }

    /** The configured mode unless it is AUTO, in which case the detected one. */
    method GetValidationModeForResource(resource: Resource) returns (r: Result<int, ReaderError>)
      ensures r == EffectiveMode(validationMode, resource)
    {
      if validationMode != VALIDATION_AUTO {
        r := Success(validationMode);
      } else {
        r := DetectValidationMode(resource);
      }
    }

    /**
     * The factory settings for a resolved mode. `supportsXsd` says whether
     * the JAXP provider accepts the XSD schema-language attribute.
     */
    function CreateDocumentBuilderFactory(mode: int, supportsXsd: bool): (r: Result<FactoryConfig, ReaderError>)
      reads this
      ensures r.Failure? <==> mode == VALIDATION_XSD && !supportsXsd
      ensures r.Failure? ==> r.error == XsdUnsupported
      ensures r.Success? ==> (r.value.validating <==> mode != VALIDATION_NONE)
      ensures r.Success? ==> (r.value.namespaceAware <==> namespaceAware || mode == VALIDATION_XSD)
      ensures r.Success? && mode == VALIDATION_XSD ==> r.value.attributes == map[SCHEMA_LANGUAGE_ATTRIBUTE := XSD_SCHEMA_LANGUAGE]
      ensures r.Success? && mode != VALIDATION_XSD ==> r.value.attributes == map[]
    {
      var factory := DefaultFactory.(namespaceAware := namespaceAware);
      if mode == VALIDATION_NONE then Success(factory)
      else
        var validating := factory.(validating := true);
        if mode != VALIDATION_XSD then Success(validating)
        else
          var aware := validating.(namespaceAware := true);
          if !supportsXsd then Failure(XsdUnsupported)
          else Success(aware.(attributes := aware.attributes[SCHEMA_LANGUAGE_ATTRIBUTE := XSD_SCHEMA_LANGUAGE]))
    }

    /**
     * The path taken to register the definitions of a parsed document: the
     * legacy parser when a parser class is set, otherwise the document
     * reader, reporting how much the registry's definition count grew.
     */
    function RegisterBeanDefinitions(countBefore: int, countAfter: int): (r: Registration)
      reads this
      ensures r.LegacyParser? <==> parserClass.Some?
      ensures r.LegacyParser? ==> r.parser == parserClass.value
      ensures r.DocumentReader? ==> countBefore + r.registered == countAfter
      ensures Valid() ==> r.DocumentReader?
    {
      if parserClass.Some? then LegacyParser(parserClass.value) else DocumentReader(countAfter - countBefore)
    }
  }
}
