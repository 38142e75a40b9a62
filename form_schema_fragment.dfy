/**
 * Fragments of the W3C XML Schema 1.0 document that describes an OpenMRS
 * form: the schema header and footer, the opening and closing of the form
 * element, the predefined types, and one complex type per form field
 * (simple, numeric, single-select and multiple-select concepts).
 *
 * The host objects are plain values and every foreign call is a field of
 * Collaborators, so each property below holds whatever those calls return.
 */
module FormSchemaFragment {
  import opened Wrappers
  import opened XmlText
  import opened Decimal
  import opened Sequences

  datatype Locale = Locale(tag: string)

  datatype Form = Form(formId: int, name: string, version: string)

  /** A concept: its HL7 datatype abbreviation and its concept class id. */
  datatype Concept = Concept(conceptId: int, hl7Abbreviation: string, conceptClassId: int)

  /** A numeric concept with its optional absolute bounds. */
  datatype ConceptNumeric = ConceptNumeric(concept: Concept, lowAbsolute: Option<real>, hiAbsolute: Option<real>)

  datatype Drug = Drug(drugId: int, name: string)

  /** One legal answer of a coded question: a concept and, optionally, a drug. */
  datatype ConceptAnswer = ConceptAnswer(answerConcept: Concept, answerDrug: Option<Drug>)

  /** The calls into code outside this model, taken as arbitrary functions. */
  datatype Collaborators = Collaborators(
    formSchemaNamespace: Form -> string,           // FormEntryWrapper.getFormSchemaNamespace
    conceptToString: (Concept, Locale) -> string,  // FormUtil.conceptToString
    drugToString: Drug -> string,                  // FormUtil.drugToString
    xmlToken: string -> string,                    // FormUtil.getXmlToken
    localizedName: (Concept, Locale) -> string,    // concept.getName(locale).getName()
    defaultName: Concept -> string,                // concept.getName().getName()
    isAllowDecimal: ConceptNumeric -> bool,        // XformsUtil.isAllowDecimal
    doubleToString: real -> string,                // Double.toString
    drugClassId: int)                              // HL7Constants.CLASS_DRUG

  // ---------------------------------------------------------------------
  // Document level fragments

  const XmlDeclaration: string := "<?xml version=\"1.0\"?>\n"
  const SchemaTag: string := "xs:schema"

  const NamespaceOpening: string :=
    XmlDeclaration
    + "<" + SchemaTag + " xmlns:xs=\"http://www.w3.org/2001/XMLSchema\"\n"
    + "           xmlns:openmrs=\""

  const NamespaceClosing: string :=
    "\n"
    + "           elementFormDefault=\"qualified\"\n"
    + "           attributeFormDefault=\"unqualified\">\n\n"

  /** The schema prologue; the form's namespace is embedded as it is, without escaping. */
  function Header(env: Collaborators, form: Form): string {
    NamespaceOpening + env.formSchemaNamespace(form) + "\"" + NamespaceClosing
  }

  /**
   * The header starts with the fixed prologue ending in xmlns:openmrs=",
   * and the value read back from there is the form's namespace exactly when the namespace holds no double quote.
   */
  lemma HeaderDeclaresNamespace(env: Collaborators, form: Form)
    ensures NamespaceOpening <= Header(env, form)
    ensures ValueAfter(Header(env, form), NamespaceOpening) == env.formSchemaNamespace(form)
            <==> '"' !in env.formSchemaNamespace(form)
  {
    RawValueRecovered(NamespaceOpening, env.formSchemaNamespace(form), NamespaceClosing);
  }

  function Footer(): string {
    "</xs:schema>"
  }

  /** The footer closes the xs:schema element that the header opens, and nothing else. */
  lemma FooterClosesSchema(env: Collaborators, form: Form)
    ensures XmlDeclaration + "<" + SchemaTag <= Header(env, form)
    ensures Footer() == "</" + SchemaTag + ">"
  {
    var p := XmlDeclaration + "<" + SchemaTag;
    assert Header(env, form)[..|p|] == p;
  }

  const HeaderSectionName: string := "_header_section"
  const HeaderChildOpening: string := "      <xs:element name=\"header\"" + " type=\""

  function StartFormLines(): seq<string> {
    ["<xs:element name=\"form\">",
     "  <xs:complexType>",
     "    <xs:sequence>",
     HeaderChildOpening + HeaderSectionName + "\"" + " />"]
  }

  lemma FormOpeningOneLine()
    ensures AllOneLine(["<xs:element name=\"form\">", "  <xs:complexType>"])
  {
    assert OneLine("<xs:element name=\"form\">");
    assert OneLine("  <xs:complexType>");
    AllOneLinePair("<xs:element name=\"form\">", "  <xs:complexType>");
  }

  lemma HeaderChildOneLine()
    ensures AllOneLine(["    <xs:sequence>", HeaderChildOpening + HeaderSectionName + "\"" + " />"])
  {
    assert OneLine("    <xs:sequence>");
    assert OneLine(HeaderChildOpening + HeaderSectionName + "\"" + " />");
    AllOneLinePair("    <xs:sequence>", HeaderChildOpening + HeaderSectionName + "\"" + " />");
  }

  lemma StartFormOneLine()
    ensures AllOneLine(StartFormLines())
  {
    var a := ["<xs:element name=\"form\">", "  <xs:complexType>"];
    var b := ["    <xs:sequence>", HeaderChildOpening + HeaderSectionName + "\"" + " />"];
    FormOpeningOneLine();
    HeaderChildOneLine();
    AllOneLineAppend(a, b);
    assert a + b == StartFormLines();
  }

  function StartForm(): string {
    Join(StartFormLines())
  }

  /**
   * The opening of the form element reads back as four lines, the last
   * one the form's header child.
   */
  lemma StartFormLayout()
    ensures Lines(StartForm()) == StartFormLines() + [""]
  {
    StartFormOneLine();
    JoinedLines(StartFormLines());
  }

  /** The header child's type is the header section that the predefined types declare. */
  lemma StartFormHeaderChild()
    ensures ValueAfter(StartFormLines()[3], HeaderChildOpening) == HeaderSectionName
  {
    RawValueRecovered(HeaderChildOpening, HeaderSectionName, " />");
  }

  function FormAttributeOpening(name: string, xsType: string): string {
    "    <xs:attribute name=\"" + name + "\" type=\"" + xsType + "\" fixed=\""
  }

  /** One fixed, required attribute of the form element. */
  function FormAttribute(name: string, xsType: string, value: string): string {
    FormAttributeOpening(name, xsType) + value + "\"" + " use=\"required\" />"
  }

  /** The lines closing the form element; only the form name goes through escapeXml. */
  function CloseFormLines(form: Form): seq<string> {
    ["    </xs:sequence>",
     FormAttribute("id", "xs:positiveInteger", IntToString(form.formId)),
     FormAttribute("name", "xs:string", EscapeXml(form.name)),
     FormAttribute("version", "xs:string", form.version),
     "  </xs:complexType>",
     "</xs:element>",
     ""]
  }

  function CloseForm(form: Form): string {
    Join(CloseFormLines(form))
  }

  lemma FormAttributeOneLine(name: string, xsType: string, value: string)
    requires OneLine(name) && OneLine(xsType) && OneLine(value)
    ensures OneLine(FormAttribute(name, xsType, value))
  {
  }

  lemma CloseFormOneLine(form: Form)
    requires OneLine(form.name) && OneLine(form.version)
    ensures AllOneLine(CloseFormLines(form))
  {
    IntToStringCharacters(form.formId);
    EscapeXmlOneLine(form.name);
    FormAttributeOneLine("id", "xs:positiveInteger", IntToString(form.formId));
    FormAttributeOneLine("name", "xs:string", EscapeXml(form.name));
    FormAttributeOneLine("version", "xs:string", form.version);
  }

  /**
   * For a one-line name and version, the closing reads back as exactly its
   * seven lines, the last one blank, then the empty remainder.
   */
  lemma CloseFormLayout(form: Form)
    requires OneLine(form.name) && OneLine(form.version)
    ensures Lines(CloseForm(form)) == CloseFormLines(form) + [""]
  {
    CloseFormOneLine(form);
    JoinedLines(CloseFormLines(form));
  }

  /**
   * Whatever the form holds, its id reads back as decimal text of the id,
   * its name, escaped, unescapes to the name, and its version, embedded
   * without escaping, is intact exactly when it holds no double quote.
   */
  lemma CloseFormAttributes(form: Form)
    ensures var ls := CloseFormLines(form);
            && ParseInt(ValueAfter(ls[1], FormAttributeOpening("id", "xs:positiveInteger"))) == form.formId
            && UnescapeXml(ValueAfter(ls[2], FormAttributeOpening("name", "xs:string"))) == form.name
            && (ValueAfter(ls[3], FormAttributeOpening("version", "xs:string")) == form.version
                <==> '"' !in form.version)
  {
    var ls := CloseFormLines(form);
    assert ls[1] == FormAttribute("id", "xs:positiveInteger", IntToString(form.formId));
    assert ls[2] == FormAttribute("name", "xs:string", EscapeXml(form.name));
    assert ls[3] == FormAttribute("version", "xs:string", form.version);
    var rest := " use=\"required\" />";
    RawValueRecovered(FormAttributeOpening("id", "xs:positiveInteger"), IntToString(form.formId), rest);
    ParseIntToString(form.formId);
    EscapedValueRecovered(FormAttributeOpening("name", "xs:string"), form.name, rest);
    RawValueRecovered(FormAttributeOpening("version", "xs:string"), form.version, rest);
  }

  // ---------------------------------------------------------------------
  // The predefined types

  const ComplexTypeOpening: string := "<xs:complexType name=\""
  const SimpleTypeOpening: string := "<xs:simpleType name=\""
  const RequiredStringType: string := "_requiredString"

  const HeaderSectionBody: string :=
    ">\n"
    + "  <xs:sequence>\n"
    + "    <xs:element name=\"enterer\" type=\"xs:string\" />\n"
    + "    <xs:element name=\"date_entered\" type=\"xs:dateTime\" />\n"
    + "    <xs:element name=\"session\" type=\"xs:string\" />\n"
    + "    <xs:element name=\"uid\" type=\"xs:string\" />\n"
    + "  </xs:sequence>\n"
    + "</xs:complexType>\n\n"

  const HeaderSectionType: string := ComplexTypeOpening + HeaderSectionName + "\"" + HeaderSectionBody

  const OtherSectionType: string :=
    "<xs:complexType name=\"_other_section\">\n"
    + "  <xs:sequence>\n"
    + "    <xs:any namespace=\"##any\" minOccurs=\"0\" maxOccurs=\"unbounded\"/>\n"
    + "  </xs:sequence>\n"
    + "</xs:complexType>\n\n"

  /** The minLength facet of XML Schema Part 2, section 4.3.2. */
  const MinLengthOpening: string := ">\n" + "  <xs:restriction base=\"xs:string\">\n" + "    <xs:minLength value=\""

  const MinLengthRest: string :=
    " />\n"
    + "  </xs:restriction>\n"
    + "</xs:simpleType>\n\n"

  const RequiredStringBody: string := MinLengthOpening + "1" + "\"" + MinLengthRest

  /** A string of length at least one. */
  const RequiredStringDeclaration: string := SimpleTypeOpening + RequiredStringType + "\"" + RequiredStringBody

  const InfopathBooleanType: string :=
    "<xs:complexType name=\"_infopath_boolean\">\n"
    + "  <xs:simpleContent>\n"
    + "    <xs:extension base=\"xs:boolean\">\n"
    + "      <xs:attribute name=\"infopath_boolean_hack\" type=\"xs:positiveInteger\" use=\"required\" fixed=\"1\" />\n"
    + "    </xs:extension>\n" + "  </xs:simpleContent>\n"
    + "</xs:complexType>\n\n"

  function PredefinedTypes(): string {
    HeaderSectionType + OtherSectionType + RequiredStringDeclaration + InfopathBooleanType
  }

  /**
   * The four input-independent types, in this order: the header section
   * that startForm's header child refers to, the open "other" section, the
   * non-empty string type that simpleConcept substitutes for required
   * strings, its minimum length read back as 1, and InfoPath's boolean
   * wrapper.
   */
  lemma PredefinedTypesDeclare()
    ensures PredefinedTypes() == HeaderSectionType + OtherSectionType + RequiredStringDeclaration + InfopathBooleanType
    ensures ValueAfter(HeaderSectionType, ComplexTypeOpening) == HeaderSectionName
    ensures ValueAfter(RequiredStringDeclaration, SimpleTypeOpening) == RequiredStringType
    ensures ValueAfter(RequiredStringBody, MinLengthOpening) == "1"
  {
    RawValueRecovered(ComplexTypeOpening, HeaderSectionName, HeaderSectionBody);
    RawValueRecovered(SimpleTypeOpening, RequiredStringType, RequiredStringBody);
    RawValueRecovered(MinLengthOpening, "1", MinLengthRest);
  }

  // ---------------------------------------------------------------------
  // Pieces shared by the per-field complex types

  function NillableFlag(required: bool): string {
    if required then "0" else "1"
  }

  const DateChild: string := "    <xs:element name=\"date\" type=\"xs:date\"" + " nillable=\"true\" minOccurs=\"0\" />"
  const TimeChild: string := "    <xs:element name=\"time\" type=\"xs:time\"" + " nillable=\"true\" minOccurs=\"0\" />"

  /** The opening of a field's complex type, with its optional date and time children. */
  function ConceptTypeOpeningLines(token: string): seq<string> {
    [ComplexTypeOpening + token + "\">", "  <xs:sequence>", DateChild, TimeChild]
  }

  lemma DateChildOneLine()
    ensures OneLine(DateChild)
  {
  }

  lemma TimeChildOneLine()
    ensures OneLine(TimeChild)
  {
  }

  lemma ConceptTypeOpeningOneLine(token: string)
    requires OneLine(token)
    ensures AllOneLine(ConceptTypeOpeningLines(token))
  {
    DateChildOneLine();
    TimeChildOneLine();
  }

  const ValueTypeOpening: string := "    <xs:element name=\"value\" type=\""
  const NillableOpening: string := "\" nillable=\""

  /** The value child of a simple or numeric concept: its type and its nillable flag. */
  function ValueElement(valueType: string, required: bool): string {
    ValueTypeOpening + valueType + NillableOpening + NillableFlag(required) + "\"" + " />"
  }

  /**
   * The type and nillable attributes read back from the value child: the
   * type is the one given exactly when it holds no double quote, and
   * nillable is "0" when the value is required and "1" when it is not.
   */
  lemma ValueElementAttributes(valueType: string, required: bool)
    ensures ValueAfter(ValueElement(valueType, required), ValueTypeOpening) == valueType <==> '"' !in valueType
    ensures ValueAfter(ValueElement(valueType, required), ValueTypeOpening + valueType + NillableOpening)
            == (if required then "0" else "1")
  {
    var flag := NillableFlag(required);
    var after := " nillable=\"" + flag + "\" />";
    assert ValueElement(valueType, required) == ValueTypeOpening + valueType + "\"" + after;
    RawValueRecovered(ValueTypeOpening, valueType, after);
    RawValueRecovered(ValueTypeOpening + valueType + NillableOpening, flag, " />");
  }

  function TypeAttributeOpening(name: string, xsType: string): string {
    "  <xs:attribute name=\"" + name + "\" type=\"" + xsType + "\" use=\"required\" fixed=\""
  }

  /** One fixed, required attribute of a field's complex type. */
  function TypeAttribute(name: string, xsType: string, value: string): string {
    TypeAttributeOpening(name, xsType) + value + "\"" + " />"
  }

  lemma TypeAttributeOneLine(name: string, xsType: string, value: string)
    requires OneLine(name) && OneLine(xsType) && OneLine(value)
    ensures OneLine(TypeAttribute(name, xsType, value))
  {
  }

  /** openmrs_concept (the rendered concept, escaped) and openmrs_datatype (the HL7 abbreviation, as it is). */
  function ConceptAttributeLines(env: Collaborators, concept: Concept, locale: Locale): seq<string> {
    [TypeAttribute("openmrs_concept", "xs:string", EscapeXml(env.conceptToString(concept, locale))),
     TypeAttribute("openmrs_datatype", "xs:string", concept.hl7Abbreviation)]
  }

  /** The strings a concept contributes to its own type's attributes hold no newline. */
  predicate ConceptOnOneLine(env: Collaborators, concept: Concept, locale: Locale) {
    OneLine(env.conceptToString(concept, locale)) && OneLine(concept.hl7Abbreviation)
  }

  lemma ConceptAttributesOneLine(env: Collaborators, concept: Concept, locale: Locale)
    requires ConceptOnOneLine(env, concept, locale)
    ensures AllOneLine(ConceptAttributeLines(env, concept, locale))
  {
    EscapeXmlOneLine(env.conceptToString(concept, locale));
    TypeAttributeOneLine("openmrs_concept", "xs:string", EscapeXml(env.conceptToString(concept, locale)));
    TypeAttributeOneLine("openmrs_datatype", "xs:string", concept.hl7Abbreviation);
  }

  /**
   * The concept attributes read back: openmrs_concept unescapes to the
   * rendered concept whatever it holds; openmrs_datatype is the
   * abbreviation exactly when that holds no double quote.
   */
  lemma ConceptAttributesRecovered(env: Collaborators, concept: Concept, locale: Locale)
    ensures var ls := ConceptAttributeLines(env, concept, locale);
            && UnescapeXml(ValueAfter(ls[0], TypeAttributeOpening("openmrs_concept", "xs:string")))
               == env.conceptToString(concept, locale)
            && (ValueAfter(ls[1], TypeAttributeOpening("openmrs_datatype", "xs:string")) == concept.hl7Abbreviation
                <==> '"' !in concept.hl7Abbreviation)
  {
    EscapedValueRecovered(TypeAttributeOpening("openmrs_concept", "xs:string"), env.conceptToString(concept, locale), " />");
    RawValueRecovered(TypeAttributeOpening("openmrs_datatype", "xs:string"), concept.hl7Abbreviation, " />");
  }

  const TypeClosingLines: seq<string> := ["</xs:complexType>", ""]

  /** The lines of a simple or numeric concept's complex type whose value child has the given type. */
  function ValueConceptTypeLines(env: Collaborators, token: string, concept: Concept, valueType: string,
                                 required: bool, locale: Locale): seq<string> {
    ConceptTypeOpeningLines(token)
    + ([ValueElement(valueType, required), "  </xs:sequence>"]
       + (ConceptAttributeLines(env, concept, locale) + TypeClosingLines))
  }

  function ValueConceptType(env: Collaborators, token: string, concept: Concept, valueType: string,
                            required: bool, locale: Locale): string {
    Join(ValueConceptTypeLines(env, token, concept, valueType, required, locale))
  }

  lemma ValueElementOneLine(valueType: string, required: bool)
    requires OneLine(valueType)
    ensures AllOneLine([ValueElement(valueType, required), "  </xs:sequence>"])
  {
    assert OneLine(ValueElement(valueType, required));
    assert OneLine("  </xs:sequence>");
    AllOneLinePair(ValueElement(valueType, required), "  </xs:sequence>");
  }

  lemma ConceptClosingOneLine(env: Collaborators, concept: Concept, locale: Locale)
    requires ConceptOnOneLine(env, concept, locale)
    ensures AllOneLine(ConceptAttributeLines(env, concept, locale) + TypeClosingLines)
  {
    ConceptAttributesOneLine(env, concept, locale);
    AllOneLinePair("</xs:complexType>", "");
    AllOneLineAppend(ConceptAttributeLines(env, concept, locale), TypeClosingLines);
  }

  lemma ValueConceptTypeOneLine(env: Collaborators, token: string, concept: Concept, valueType: string,
                                required: bool, locale: Locale)
    requires OneLine(token) && OneLine(valueType) && ConceptOnOneLine(env, concept, locale)
    ensures AllOneLine(ValueConceptTypeLines(env, token, concept, valueType, required, locale))
  {
    var o := ConceptTypeOpeningLines(token);
    var v := [ValueElement(valueType, required), "  </xs:sequence>"];
    var c := ConceptAttributeLines(env, concept, locale) + TypeClosingLines;
    ConceptTypeOpeningOneLine(token);
    ValueElementOneLine(valueType, required);
    ConceptClosingOneLine(env, concept, locale);
    AllOneLineAppend(v, c);
    AllOneLineAppend(o, v + c);
  }

  /**
   * A simple or numeric concept's type reads back as exactly its lines,
   * followed by the blank line that ends every type.
   */
  lemma ValueConceptTypeLayout(env: Collaborators, token: string, concept: Concept, valueType: string,
                               required: bool, locale: Locale)
    requires OneLine(token) && OneLine(valueType) && ConceptOnOneLine(env, concept, locale)
    ensures Lines(ValueConceptType(env, token, concept, valueType, required, locale))
            == ValueConceptTypeLines(env, token, concept, valueType, required, locale) + [""]
  {
    var ls := ValueConceptTypeLines(env, token, concept, valueType, required, locale);
    ValueConceptTypeOneLine(env, token, concept, valueType, required, locale);
    JoinedLines(ls);
  }

  // ---------------------------------------------------------------------
  // simpleConcept

  /**
   * simpleConcept: a required xs:string value is given the non-empty
   * string type instead; any other type, and any type of an optional
   * value, is kept as it is.
   */
  method SimpleConcept(env: Collaborators, token: string, concept: Concept, xsType: string,
                       required: bool, locale: Locale) returns (xml: string)
    ensures required && xsType == "xs:string" ==>
              xml == ValueConceptType(env, token, concept, RequiredStringType, required, locale)
    ensures !(required && xsType == "xs:string") ==>
              xml == ValueConceptType(env, token, concept, xsType, required, locale)
  {
    var valueType := xsType;
    if required && xsType == "xs:string" {
      valueType := RequiredStringType;
    }
    xml := ValueConceptType(env, token, concept, valueType, required, locale);
  }

  // ---------------------------------------------------------------------
  // numericConcept and numericToString

  const LongMin: int := -0x8000_0000_0000_0000
  const LongMax: int := 0x7FFF_FFFF_FFFF_FFFF

  /** Math.round: the closest long, ties toward positive infinity, saturating at the long range. */
  function JavaRound(v: real): (r: int)
    ensures LongMin <= r <= LongMax
  {
    var f := (v + 0.5).Floor;
    if f < LongMin then LongMin else if f > LongMax then LongMax else f
  }

  /** Within the long range, Math.round lands within one half of the value, ties going up. */
  lemma JavaRoundNearest(v: real)
    requires LongMin as real <= v + 0.5 < LongMax as real + 1.0
    ensures JavaRound(v) as real - 0.5 <= v < JavaRound(v) as real + 0.5
  {
  }

  /** numericToString: Double.toString when precise, otherwise the decimal text of Math.round. */
  function NumericToString(env: Collaborators, value: real, precise: bool): (r: string)
    ensures precise ==> r == env.doubleToString(value)
    ensures !precise ==> ParseInt(r) == JavaRound(value) && OneLine(r) && '"' !in r
  {
    if precise then env.doubleToString(value)
    else
      ParseIntToString(JavaRound(value));
      IntToStringCharacters(JavaRound(value));
      IntToString(JavaRound(value))
  }

  /** Rounding, not truncation: 1.5 gives "2", 1.4 gives "1", and -1.5 gives "-1". */
  lemma NumericToStringRounds(env: Collaborators)
    ensures NumericToString(env, 1.5, false) == "2"
    ensures NumericToString(env, 1.4, false) == "1"
    ensures NumericToString(env, -1.5, false) == "-1"
  {
    assert JavaRound(1.5) == 2;
    assert JavaRound(1.4) == 1;
    assert JavaRound(-1.5) == -1;
    assert Digits(2) == "2" && Digits(1) == "1";
  }

  function NumericBase(precise: bool): string {
    if precise then "xs:float" else "xs:int"
  }

  lemma NumericBaseOneLine(precise: bool)
    ensures OneLine(NumericBase(precise))
  {
  }

  function FacetOpening(facet: string): string {
    "    <xs:" + facet + " value=\""
  }

  /** One inclusive-bound facet (XML Schema Part 2, sections 4.3.7 and 4.3.10). */
  function Facet(facet: string, value: string): string {
    FacetOpening(facet) + value + "\"" + " />"
  }

  /** The facets for the bounds that are present: minInclusive first, then maxInclusive. */
  function FacetLines(env: Collaborators, concept: ConceptNumeric, precise: bool): seq<string> {
    (if concept.lowAbsolute.None? then []
     else [Facet("minInclusive", NumericToString(env, concept.lowAbsolute.value, precise))])
    + (if concept.hiAbsolute.None? then []
       else [Facet("maxInclusive", NumericToString(env, concept.hiAbsolute.value, precise))])
  }

  /**
   * One facet per present bound: a minInclusive facet exactly when the
   * low bound is present, then a maxInclusive facet exactly when the high
   * bound is present; without decimals, each facet's value reads back as
   * the bound rounded by Math.round.
   */
  lemma FacetsPerBound(env: Collaborators, concept: ConceptNumeric, precise: bool)
    ensures var fs := FacetLines(env, concept, precise);
            && |fs| == (if concept.lowAbsolute.Some? then 1 else 0) + (if concept.hiAbsolute.Some? then 1 else 0)
            && (concept.lowAbsolute.Some? ==>
                  fs[0] == Facet("minInclusive", NumericToString(env, concept.lowAbsolute.value, precise))
                  && (!precise ==> ParseInt(ValueAfter(fs[0], FacetOpening("minInclusive")))
                                   == JavaRound(concept.lowAbsolute.value)))
            && (concept.hiAbsolute.Some? ==>
                  fs[|fs| - 1] == Facet("maxInclusive", NumericToString(env, concept.hiAbsolute.value, precise))
                  && (!precise ==> ParseInt(ValueAfter(fs[|fs| - 1], FacetOpening("maxInclusive")))
                                   == JavaRound(concept.hiAbsolute.value)))
  {
    if concept.lowAbsolute.Some? {
      RawValueRecovered(FacetOpening("minInclusive"), NumericToString(env, concept.lowAbsolute.value, precise), " />");
    }
    if concept.hiAbsolute.Some? {
      RawValueRecovered(FacetOpening("maxInclusive"), NumericToString(env, concept.hiAbsolute.value, precise), " />");
    }
  }

  function RestrictedTypeName(token: string): string {
    token + "_restricted_type"
  }

  function RestrictedTypeLines(token: string, base: string, facets: seq<string>): seq<string> {
    [SimpleTypeOpening + RestrictedTypeName(token) + "\">",
     "  <xs:restriction base=\"" + base + "\">"]
    + (facets + ["  </xs:restriction>", "</xs:simpleType>"])
  }

  function RestrictedType(token: string, base: string, facets: seq<string>): string {
    Join(RestrictedTypeLines(token, base, facets))
  }

  /**
   * numericConcept: without bounds, the value child has the raw base type
   * (xs:float when decimals are allowed, xs:int otherwise); with at least
   * one bound, a simple type named token_restricted_type restricting that
   * base by one facet per present bound comes first, and the value child
   * refers to it.
   */
  method NumericConcept(env: Collaborators, token: string, concept: ConceptNumeric, required: bool,
                        locale: Locale) returns (xml: string)
    ensures concept.lowAbsolute.None? && concept.hiAbsolute.None? ==>
              xml == ValueConceptType(env, token, concept.concept, NumericBase(env.isAllowDecimal(concept)),
                                      required, locale)
    ensures concept.lowAbsolute.Some? || concept.hiAbsolute.Some? ==>
              xml == RestrictedType(token, NumericBase(env.isAllowDecimal(concept)),
                                    FacetLines(env, concept, env.isAllowDecimal(concept)))
                     + ValueConceptType(env, token, concept.concept, RestrictedTypeName(token), required, locale)
  {
    var minInclusive := concept.lowAbsolute;
    var maxInclusive := concept.hiAbsolute;
    var precise := env.isAllowDecimal(concept);
    var skipBounds := minInclusive.None? && maxInclusive.None?;
    var base := if precise then "xs:float" else "xs:int";
    xml := "";
    if !skipBounds {
      var facets := (if minInclusive.None? then []
                     else [Facet("minInclusive", NumericToString(env, minInclusive.value, precise))])
                    + (if maxInclusive.None? then []
                       else [Facet("maxInclusive", NumericToString(env, maxInclusive.value, precise))]);
      assert facets == FacetLines(env, concept, precise);
      AppendEmpty(RestrictedType(token, base, facets));
      xml := xml + RestrictedType(token, base, facets);
    }
    var valueType := if skipBounds then base else RestrictedTypeName(token);
    AppendEmpty(ValueConceptType(env, token, concept.concept, valueType, required, locale));
    xml := xml + ValueConceptType(env, token, concept.concept, valueType, required, locale);
  }

  lemma RestrictedTypeOneLine(token: string, base: string, facets: seq<string>)
    requires OneLine(token) && OneLine(base) && AllOneLine(facets)
    ensures AllOneLine(RestrictedTypeLines(token, base, facets))
  {
    assert OneLine("  </xs:restriction>") && OneLine("</xs:simpleType>");
    AllOneLineAppend(facets, ["  </xs:restriction>", "</xs:simpleType>"]);
    assert OneLine(SimpleTypeOpening + RestrictedTypeName(token) + "\">");
    assert OneLine("  <xs:restriction base=\"" + base + "\">");
    AllOneLineAppend([SimpleTypeOpening + RestrictedTypeName(token) + "\">", "  <xs:restriction base=\"" + base + "\">"],
                     facets + ["  </xs:restriction>", "</xs:simpleType>"]);
  }

  /** The rendered bounds hold no newline; without decimals they never do. */
  predicate BoundsOnOneLine(env: Collaborators, concept: ConceptNumeric, precise: bool) {
    && (concept.lowAbsolute.Some? ==> OneLine(NumericToString(env, concept.lowAbsolute.value, precise)))
    && (concept.hiAbsolute.Some? ==> OneLine(NumericToString(env, concept.hiAbsolute.value, precise)))
  }

  lemma FacetOneLine(facet: string, value: string)
    requires OneLine(facet) && OneLine(value)
    ensures OneLine(Facet(facet, value))
  {
  }

  lemma FacetLinesOneLine(env: Collaborators, concept: ConceptNumeric, precise: bool)
    requires BoundsOnOneLine(env, concept, precise)
    ensures AllOneLine(FacetLines(env, concept, precise))
  {
    assert OneLine("minInclusive") && OneLine("maxInclusive");
    if concept.lowAbsolute.Some? {
      FacetOneLine("minInclusive", NumericToString(env, concept.lowAbsolute.value, precise));
    }
    if concept.hiAbsolute.Some? {
      FacetOneLine("maxInclusive", NumericToString(env, concept.hiAbsolute.value, precise));
    }
    var low: seq<string> := if concept.lowAbsolute.None? then []
                            else [Facet("minInclusive", NumericToString(env, concept.lowAbsolute.value, precise))];
    var high: seq<string> := if concept.hiAbsolute.None? then []
                             else [Facet("maxInclusive", NumericToString(env, concept.hiAbsolute.value, precise))];
    assert AllOneLine(low) && AllOneLine(high);
    AllOneLineAppend(low, high);
  }

  /**
   * With at least one bound, numericConcept's text reads back as the
   * restricted type's lines, whose facets are those of the present
   * bounds, then the value type's lines, which refer to the restricted
   * type by name.
   */
  lemma NumericConceptLayout(env: Collaborators, token: string, concept: ConceptNumeric, required: bool,
                             locale: Locale)
    requires concept.lowAbsolute.Some? || concept.hiAbsolute.Some?
    requires OneLine(token) && ConceptOnOneLine(env, concept.concept, locale)
    requires BoundsOnOneLine(env, concept, env.isAllowDecimal(concept))
    ensures var precise := env.isAllowDecimal(concept);
            Lines(RestrictedType(token, NumericBase(precise), FacetLines(env, concept, precise))
                  + ValueConceptType(env, token, concept.concept, RestrictedTypeName(token), required, locale))
            == RestrictedTypeLines(token, NumericBase(precise), FacetLines(env, concept, precise))
               + (ValueConceptTypeLines(env, token, concept.concept, RestrictedTypeName(token), required, locale) + [""])
  {
    var precise := env.isAllowDecimal(concept);
    var fs := FacetLines(env, concept, precise);
    FacetLinesOneLine(env, concept, precise);
    NumericBaseOneLine(precise);
    RestrictedTypeOneLine(token, NumericBase(precise), fs);
    RestrictedTypeNameOneLine(token);
    ValueConceptTypeLayout(env, token, concept.concept, RestrictedTypeName(token), required, locale);
    JoinedLinesBefore(RestrictedTypeLines(token, NumericBase(precise), fs),
                      ValueConceptType(env, token, concept.concept, RestrictedTypeName(token), required, locale),
                      ValueConceptTypeLines(env, token, concept.concept, RestrictedTypeName(token), required, locale));
  }

  lemma RestrictedTypeNameOneLine(token: string)
    requires OneLine(token)
    ensures OneLine(RestrictedTypeName(token))
  {
  }

  // ---------------------------------------------------------------------
  // The end shared by both select types

  const MultipleOpening: string := "  <xs:attribute name=\"multiple\"" + " type=\"xs:integer\"" + " use=\"required\" fixed=\""

  /** The end of a select type: the concept attributes, then the fixed multiple flag. */
  function SelectClosingLines(env: Collaborators, concept: Concept, locale: Locale, multiple: string): seq<string> {
    ["  </xs:sequence>"]
    + (ConceptAttributeLines(env, concept, locale)
       + ([MultipleOpening + multiple + "\"" + " />"] + TypeClosingLines))
  }

  lemma MultipleOpeningOneLine()
    ensures OneLine(MultipleOpening)
  {
  }

  lemma SelectClosingOneLine(env: Collaborators, concept: Concept, locale: Locale, multiple: string)
    requires ConceptOnOneLine(env, concept, locale) && OneLine(multiple)
    ensures AllOneLine(SelectClosingLines(env, concept, locale, multiple))
  {
    var m := MultipleOpening + multiple + "\"" + " />";
    MultipleOpeningOneLine();
    assert OneLine(m);
    assert AllOneLine([m] + TypeClosingLines);
    ConceptAttributesOneLine(env, concept, locale);
    AllOneLineAppend(ConceptAttributeLines(env, concept, locale), [m] + TypeClosingLines);
    AllOneLineAppend(["  </xs:sequence>"], ConceptAttributeLines(env, concept, locale) + ([m] + TypeClosingLines));
  }

  /** The multiple attribute of a select type reads back as the flag it was given. */
  lemma SelectClosingMultiple(env: Collaborators, concept: Concept, locale: Locale, multiple: string)
    requires '"' !in multiple
    ensures var ls := SelectClosingLines(env, concept, locale, multiple);
            |ls| == 6 && ValueAfter(ls[3], MultipleOpening) == multiple
  {
    RawValueRecovered(MultipleOpening, multiple, " />");
  }

  // ---------------------------------------------------------------------
  // selectSingle

  /** The answer's concept is of the drug class and the answer names a drug. */
  predicate IsDrugAnswer(env: Collaborators, answer: ConceptAnswer) {
    answer.answerConcept.conceptClassId == env.drugClassId && answer.answerDrug.Some?
  }

  const EnumerationOpening: string := "          <xs:enumeration value=\""

  /** One enumeration value with its comment; neither is escaped here. */
  function EnumerationLine(value: string, comment: string): string {
    EnumerationOpening + value + "\"" + (" /> <!-- " + comment + " -->")
  }

  /** The enumerated value: the escaped concept string, with ^drug for a drug answer. */
  function EnumerationValue(env: Collaborators, answer: ConceptAnswer, locale: Locale): string {
    if IsDrugAnswer(env, answer)
    then EscapeXml(env.conceptToString(answer.answerConcept, locale)) + "^" + env.drugToString(answer.answerDrug.value)
    else EscapeXml(env.conceptToString(answer.answerConcept, locale))
  }

  /** The comment: the drug's name for a drug answer, else the concept's name in the locale. */
  function EnumerationComment(env: Collaborators, answer: ConceptAnswer, locale: Locale): string {
    if IsDrugAnswer(env, answer) then answer.answerDrug.value.name
    else env.localizedName(answer.answerConcept, locale)
  }

  /** The enumeration lines of the answers: exactly one per answer, in input order. */
  function EnumerationLines(env: Collaborators, answers: seq<ConceptAnswer>, locale: Locale): (ls: seq<string>)
    ensures |ls| == |answers|
    ensures forall k :: 0 <= k < |answers| ==>
              ls[k] == EnumerationLine(EnumerationValue(env, answers[k], locale), EnumerationComment(env, answers[k], locale))
  {
    if answers == [] then []
    else
      var a := answers[|answers| - 1];
      EnumerationLines(env, answers[..|answers| - 1], locale)
      + [EnumerationLine(EnumerationValue(env, a, locale), EnumerationComment(env, a, locale))]
  }

  /**
   * The enumerated value read back from its line: for an answer that is
   * not a drug answer it unescapes to the concept string; it is the whole
   * value exactly unless this is a drug answer whose drug string, embedded
   * without escaping, holds a double quote.
   */
  lemma EnumerationValueRecovered(env: Collaborators, answer: ConceptAnswer, locale: Locale)
    ensures var line := EnumerationLine(EnumerationValue(env, answer, locale), EnumerationComment(env, answer, locale));
            && (!IsDrugAnswer(env, answer) ==>
                  UnescapeXml(ValueAfter(line, EnumerationOpening)) == env.conceptToString(answer.answerConcept, locale))
            && (ValueAfter(line, EnumerationOpening) == EnumerationValue(env, answer, locale)
                <==> !IsDrugAnswer(env, answer) || '"' !in env.drugToString(answer.answerDrug.value))
  {
    var value := EnumerationValue(env, answer, locale);
    var after := " /> <!-- " + EnumerationComment(env, answer, locale) + " -->";
    var concept := EscapeXml(env.conceptToString(answer.answerConcept, locale));
    RawValueRecovered(EnumerationOpening, value, after);
    if IsDrugAnswer(env, answer) {
      var drug := env.drugToString(answer.answerDrug.value);
      assert '"' in value <==> '"' in drug by {
        assert value == concept + "^" + drug;
        assert '"' !in concept;
      }
    } else {
      EscapedValueRecovered(EnumerationOpening, env.conceptToString(answer.answerConcept, locale), after);
    }
  }

  /**
   * The comment closing an enumeration line is the drug's name for a drug
   * answer, else the concept's name in the locale, embedded as it is,
   * without escaping.
   */
  lemma EnumerationCommentRaw(env: Collaborators, answer: ConceptAnswer, locale: Locale)
    ensures var comment := EnumerationComment(env, answer, locale);
            var line := EnumerationLine(EnumerationValue(env, answer, locale), comment);
            && |line| >= |comment| + 4
            && line[|line| - 4..] == " -->"
            && line[|line| - 4 - |comment|..|line| - 4]
               == (if IsDrugAnswer(env, answer) then answer.answerDrug.value.name
                   else env.localizedName(answer.answerConcept, locale))
  {
    var comment := EnumerationComment(env, answer, locale);
    var head := EnumerationOpening + EnumerationValue(env, answer, locale) + "\"" + " /> <!-- ";
    var line := EnumerationLine(EnumerationValue(env, answer, locale), comment);
    assert line == head + comment + " -->";
    MiddleSlice(head, comment, " -->");
  }

  const SingleValueOpening: string := "    <xs:element name=\"value\"" + " minOccurs=\"0\" maxOccurs=\"1\" nillable=\""
  const StringRestriction: string := "        <xs:restriction" + " base=\"xs:string\">"

  function SelectSingleOpeningLines(token: string, required: bool): seq<string> {
    ConceptTypeOpeningLines(token)
    + [SingleValueOpening + NillableFlag(required) + "\"" + ">", "      <xs:simpleType>", StringRestriction]
  }

  function SelectSingleClosingLines(env: Collaborators, concept: Concept, locale: Locale): seq<string> {
    ["        </xs:restriction>", "      </xs:simpleType>", "    </xs:element>"]
    + SelectClosingLines(env, concept, locale, "0")
  }

  lemma AppendLine(prefix: string, ls: seq<string>, line: string)
    ensures prefix + Join(ls) + (line + "\n") == prefix + Join(ls + [line])
  {
    JoinAppend(ls, [line]);
    assert Join([line]) == line + "\n" + Join([]);
    AppendEmpty(line + "\n");
    AppendAssoc(prefix, Join(ls), line + "\n");
  }

  /**
   * selectSingle: the value child restricts xs:string to one enumeration
   * per answer, in input order, and the type ends with the fixed
   * attribute multiple="0".
   */
  method SelectSingle(env: Collaborators, token: string, concept: Concept, answerList: seq<ConceptAnswer>,
                      required: bool, locale: Locale) returns (xml: string)
    ensures xml == Join(SelectSingleOpeningLines(token, required)
                        + EnumerationLines(env, answerList, locale)
                        + SelectSingleClosingLines(env, concept, locale))
  {
    xml := Join(ConceptTypeOpeningLines(token)
                + [SingleValueOpening + (if required then "0" else "1") + "\"" + ">",
                   "      <xs:simpleType>",
                   StringRestriction]);
    ghost var opening := xml;
    AppendEmpty(opening);
    for i := 0 to |answerList|
      invariant xml == opening + Join(EnumerationLines(env, answerList[..i], locale))
    {
      var answer := answerList[i];
      var answerConceptName := env.localizedName(answer.answerConcept, locale);
      if answer.answerConcept.conceptClassId == env.drugClassId && answer.answerDrug.Some? {
        var answerDrugName := answer.answerDrug.value.name;
        xml := xml + (EnumerationLine(EscapeXml(env.conceptToString(answer.answerConcept, locale)) + "^"
                                      + env.drugToString(answer.answerDrug.value), answerDrugName) + "\n");
      } else {
        xml := xml + (EnumerationLine(EscapeXml(env.conceptToString(answer.answerConcept, locale)),
                                      answerConceptName) + "\n");
      }
      assert answerList[..i + 1][..i] == answerList[..i];
      AppendLine(opening, EnumerationLines(env, answerList[..i], locale),
                 EnumerationLine(EnumerationValue(env, answer, locale), EnumerationComment(env, answer, locale)));
    }
    assert answerList[..|answerList|] == answerList;
    xml := xml + Join(SelectSingleClosingLines(env, concept, locale));
    JoinAppend(SelectSingleOpeningLines(token, required), EnumerationLines(env, answerList, locale));
    JoinAppend(SelectSingleOpeningLines(token, required) + EnumerationLines(env, answerList, locale),
               SelectSingleClosingLines(env, concept, locale));
  }

  /** The strings an answer puts into its enumeration line hold no newline. */
  predicate EnumerationOnOneLine(env: Collaborators, answer: ConceptAnswer, locale: Locale) {
    OneLine(env.conceptToString(answer.answerConcept, locale))
    && (IsDrugAnswer(env, answer) ==>
          OneLine(env.drugToString(answer.answerDrug.value)) && OneLine(answer.answerDrug.value.name))
    && (!IsDrugAnswer(env, answer) ==> OneLine(env.localizedName(answer.answerConcept, locale)))
  }

  lemma EnumerationLineOneLine(value: string, comment: string)
    requires OneLine(value) && OneLine(comment)
    ensures OneLine(EnumerationLine(value, comment))
  {
  }

  lemma AnswerEnumerationOneLine(env: Collaborators, answer: ConceptAnswer, locale: Locale)
    requires EnumerationOnOneLine(env, answer, locale)
    ensures OneLine(EnumerationLine(EnumerationValue(env, answer, locale), EnumerationComment(env, answer, locale)))
  {
    EscapeXmlOneLine(env.conceptToString(answer.answerConcept, locale));
    assert OneLine(EnumerationValue(env, answer, locale));
    EnumerationLineOneLine(EnumerationValue(env, answer, locale), EnumerationComment(env, answer, locale));
  }

  lemma EnumerationLinesOneLine(env: Collaborators, answers: seq<ConceptAnswer>, locale: Locale)
    requires forall k :: 0 <= k < |answers| ==> EnumerationOnOneLine(env, answers[k], locale)
    ensures AllOneLine(EnumerationLines(env, answers, locale))
  {
    var e := EnumerationLines(env, answers, locale);
    forall k | 0 <= k < |e| ensures OneLine(e[k]) {
      AnswerEnumerationOneLine(env, answers[k], locale);
    }
  }

  lemma SingleValueOneLine()
    ensures OneLine(SingleValueOpening)
  {
  }

  lemma StringRestrictionOneLine()
    ensures OneLine(StringRestriction) && OneLine("      <xs:simpleType>")
  {
  }

  lemma SelectSingleFixedOneLine(token: string, required: bool)
    requires OneLine(token)
    ensures AllOneLine(SelectSingleOpeningLines(token, required))
  {
    ConceptTypeOpeningOneLine(token);
    SingleValueOneLine();
    StringRestrictionOneLine();
    var more := [SingleValueOpening + NillableFlag(required) + "\"" + ">", "      <xs:simpleType>", StringRestriction];
    assert OneLine(more[0]) && OneLine(more[1]) && OneLine(more[2]);
    AllOneLineAppend(ConceptTypeOpeningLines(token), more);
  }

  lemma SelectSingleClosingOneLine(env: Collaborators, concept: Concept, locale: Locale)
    requires ConceptOnOneLine(env, concept, locale)
    ensures AllOneLine(SelectSingleClosingLines(env, concept, locale))
  {
    var ends := ["        </xs:restriction>", "      </xs:simpleType>", "    </xs:element>"];
    assert OneLine(ends[0]) && OneLine(ends[1]) && OneLine(ends[2]);
    SelectClosingOneLine(env, concept, locale, "0");
    AllOneLineAppend(ends, SelectClosingLines(env, concept, locale, "0"));
  }

  /**
   * Read as lines, selectSingle's type is its seven opening lines, then
   * one enumeration line per answer in input order, then the closing lines.
   */
  lemma SelectSingleLayout(env: Collaborators, token: string, concept: Concept, answers: seq<ConceptAnswer>,
                           required: bool, locale: Locale)
    requires OneLine(token) && ConceptOnOneLine(env, concept, locale)
    requires forall k :: 0 <= k < |answers| ==> EnumerationOnOneLine(env, answers[k], locale)
    ensures Lines(Join(SelectSingleOpeningLines(token, required)
                       + EnumerationLines(env, answers, locale)
                       + SelectSingleClosingLines(env, concept, locale)))
            == SelectSingleOpeningLines(token, required)
               + EnumerationLines(env, answers, locale)
               + SelectSingleClosingLines(env, concept, locale) + [""]
  {
    var o := SelectSingleOpeningLines(token, required);
    var e := EnumerationLines(env, answers, locale);
    var c := SelectSingleClosingLines(env, concept, locale);
    SelectSingleFixedOneLine(token, required);
    EnumerationLinesOneLine(env, answers, locale);
    SelectSingleClosingOneLine(env, concept, locale);
    AllOneLineAppend(o, e);
    AllOneLineAppend(o + e, c);
    JoinedLines(o + e + c);
  }

  /**
   * In selectSingle's type the value child's nillable flag reads back as
   * "0" exactly when the value is required, and the multiple attribute
   * reads back as "0".
   */
  lemma SelectSingleFlags(env: Collaborators, token: string, concept: Concept, required: bool, locale: Locale)
    ensures ValueAfter(SelectSingleOpeningLines(token, required)[4], SingleValueOpening) == "0" <==> required
    ensures ValueAfter(SelectSingleClosingLines(env, concept, locale)[6], MultipleOpening) == "0"
  {
    RawValueRecovered(SingleValueOpening, NillableFlag(required), ">");
    RawValueRecovered(MultipleOpening, "0", " />");
  }

  // ---------------------------------------------------------------------
  // selectMultiple

  /** A boolean child of a multiple-select type, named by the answer, default false and nillable. */
  function ChildHead(name: string): string {
    ChildNameOpening + name + "\"" + " default=\"" + "false" + "\"" + " nillable=\"" + "true" + "\"" + ">"
  }

  const ChildNameOpening: string := "    <xs:element name=\""

  const ChildConceptOpening: string :=
    "            <xs:attribute" + " name=\"openmrs_concept\"" + " type=\"xs:string\"" + " use=\"required\" fixed=\""

  function ChildConceptAttribute(value: string): string {
    ChildConceptOpening + value + "\"" + " />"
  }

  const BooleanExtension: string := "          <xs:extension" + " base=\"xs:boolean\">"

  /** The lines of one boolean child element. */
  function ChildLines(name: string, value: string): seq<string> {
    [ChildHead(name),
     "      <xs:complexType>",
     "        <xs:simpleContent>",
     BooleanExtension,
     ChildConceptAttribute(value),
     "          </xs:extension>",
     "        </xs:simpleContent>",
     "      </xs:complexType>",
     "    </xs:element>"]
  }

  function ChildElement(name: string, value: string): string {
    Join(ChildLines(name, value))
  }

  /** The child's name: the XML token of the drug's name when there is a drug, else of the concept's name. */
  function ChildName(env: Collaborators, answer: ConceptAnswer): string {
    if answer.answerDrug.Some? then env.xmlToken(answer.answerDrug.value.name)
    else env.xmlToken(env.defaultName(answer.answerConcept))
  }

  /** The child's openmrs_concept: the escaped concept string, with ^drug whenever there is a drug. */
  function ChildConceptValue(env: Collaborators, answer: ConceptAnswer, locale: Locale): string {
    if answer.answerDrug.Some?
    then EscapeXml(env.conceptToString(answer.answerConcept, locale)) + "^" + env.drugToString(answer.answerDrug.value)
    else EscapeXml(env.conceptToString(answer.answerConcept, locale))
  }

  /** The child element of one answer. */
  function AnswerChildLines(env: Collaborators, answer: ConceptAnswer, locale: Locale): seq<string> {
    ChildLines(ChildName(env, answer), ChildConceptValue(env, answer, locale))
  }

  /** The lines of the answers' children: nine per answer. */
  function ChildrenLines(env: Collaborators, answers: seq<ConceptAnswer>, locale: Locale): (ls: seq<string>)
    ensures |ls| == 9 * |answers|
  {
    if answers == [] then []
    else
      var n := |answers| - 1;
      ChildrenLines(env, answers[..n], locale) + AnswerChildLines(env, answers[n], locale)
  }

  /** Lines 9k to 9k + 8 of the children are answer k's child element: one child per answer, in input order. */
  lemma {:induction false} ChildrenLinesAt(env: Collaborators, answers: seq<ConceptAnswer>, locale: Locale, k: nat)
    requires k < |answers|
    ensures ChildrenLines(env, answers, locale)[9 * k..9 * k + 9] == AnswerChildLines(env, answers[k], locale)
  {
    var n := |answers| - 1;
    var before := ChildrenLines(env, answers[..n], locale);
    var last := AnswerChildLines(env, answers[n], locale);
    assert ChildrenLines(env, answers, locale) == before + last;
    if k == n {
      SliceRight(before, last);
    } else {
      ChildrenLinesAt(env, answers[..n], locale, k);
      assert answers[..n][k] == answers[k];
      SliceLeft(before, last, 9 * k, 9 * k + 9);
    }
  }

  /**
   * selectMultiple: one boolean child per answer, in input order, and the
   * type ends with the fixed attribute multiple="1".
   */
  method SelectMultiple(env: Collaborators, token: string, concept: Concept, answerList: seq<ConceptAnswer>,
                        locale: Locale) returns (xml: string)
    ensures xml == Join(ConceptTypeOpeningLines(token)
                        + ChildrenLines(env, answerList, locale)
                        + SelectClosingLines(env, concept, locale, "1"))
  {
    xml := Join(ConceptTypeOpeningLines(token));
    ghost var opening := xml;
    AppendEmpty(opening);
    for i := 0 to |answerList|
      invariant xml == opening + Join(ChildrenLines(env, answerList[..i], locale))
    {
      var answer := answerList[i];
      ghost var before := ChildrenLines(env, answerList[..i], locale);
      ghost var child := AnswerChildLines(env, answer, locale);
      ghost var prev := xml;
      var answerConcept := answer.answerConcept;
      var answerConceptName := env.defaultName(answerConcept);
      var answerDrug := answer.answerDrug;
      if answerDrug.Some? {
        var answerDrugName := answerDrug.value.name;
        xml := xml + ChildElement(env.xmlToken(answerDrugName),
                                  EscapeXml(env.conceptToString(answerConcept, locale)) + "^"
                                  + env.drugToString(answerDrug.value));
      } else {
        xml := xml + ChildElement(env.xmlToken(answerConceptName),
                                  EscapeXml(env.conceptToString(answerConcept, locale)));
      }
      assert xml == prev + ChildElement(ChildName(env, answer), ChildConceptValue(env, answer, locale));
      assert answerList[..i + 1][..i] == answerList[..i] && answerList[..i + 1][i] == answer;
      assert ChildrenLines(env, answerList[..i + 1], locale) == before + child;
      JoinAppend(before, child);
      AppendAssoc(opening, Join(before), Join(child));
    }
    assert answerList[..|answerList|] == answerList;
    xml := xml + Join(SelectClosingLines(env, concept, locale, "1"));
    JoinAppend(ConceptTypeOpeningLines(token), ChildrenLines(env, answerList, locale));
    JoinAppend(ConceptTypeOpeningLines(token) + ChildrenLines(env, answerList, locale),
               SelectClosingLines(env, concept, locale, "1"));
  }

  /** The strings an answer puts into its child element hold no newline. */
  predicate ChildOnOneLine(env: Collaborators, answer: ConceptAnswer, locale: Locale) {
    OneLine(ChildName(env, answer))
    && OneLine(env.conceptToString(answer.answerConcept, locale))
    && (answer.answerDrug.Some? ==> OneLine(env.drugToString(answer.answerDrug.value)))
  }

  lemma ChildFixedOneLine1()
    ensures OneLine("      <xs:complexType>") && OneLine("        <xs:simpleContent>")
  {
  }

  lemma ChildFixedOneLine2()
    ensures OneLine(BooleanExtension) && OneLine("          </xs:extension>")
  {
  }

  lemma ChildFixedOneLine3()
    ensures OneLine("        </xs:simpleContent>") && OneLine("      </xs:complexType>")
  {
  }

  lemma ChildFixedOneLine4()
    ensures OneLine(ChildConceptOpening) && OneLine("    </xs:element>")
  {
  }

  lemma ChildLinesOneLine(name: string, value: string)
    requires OneLine(name) && OneLine(value)
    ensures AllOneLine(ChildLines(name, value))
  {
    ChildFixedOneLine1();
    ChildFixedOneLine2();
    ChildFixedOneLine3();
    ChildFixedOneLine4();
    assert OneLine(ChildHead(name)) && OneLine(ChildConceptAttribute(value));
  }

  lemma AnswerChildOneLine(env: Collaborators, answer: ConceptAnswer, locale: Locale)
    requires ChildOnOneLine(env, answer, locale)
    ensures AllOneLine(AnswerChildLines(env, answer, locale))
  {
    EscapeXmlOneLine(env.conceptToString(answer.answerConcept, locale));
    assert OneLine(ChildConceptValue(env, answer, locale));
    ChildLinesOneLine(ChildName(env, answer), ChildConceptValue(env, answer, locale));
  }

  lemma {:induction false} ChildrenLinesOneLine(env: Collaborators, answers: seq<ConceptAnswer>, locale: Locale)
    requires forall k :: 0 <= k < |answers| ==> ChildOnOneLine(env, answers[k], locale)
    ensures AllOneLine(ChildrenLines(env, answers, locale))
  {
    if answers != [] {
      var n := |answers| - 1;
      var init := answers[..n];
      assert forall k :: 0 <= k < |init| ==> ChildOnOneLine(env, init[k], locale) by {
        forall k | 0 <= k < |init| ensures ChildOnOneLine(env, init[k], locale) {
          assert init[k] == answers[k];
        }
      }
      ChildrenLinesOneLine(env, init, locale);
      var last := answers[n];
      assert ChildOnOneLine(env, last, locale);
      AnswerChildOneLine(env, last, locale);
      AllOneLineAppend(ChildrenLines(env, init, locale), AnswerChildLines(env, last, locale));
    }
  }

  /**
   * Read as lines, selectMultiple's type is its four opening lines, then
   * nine lines per answer in input order, then the closing lines, whose
   * multiple attribute reads back as "1".
   */
  lemma SelectMultipleLayout(env: Collaborators, token: string, concept: Concept, answers: seq<ConceptAnswer>,
                             locale: Locale)
    requires OneLine(token) && ConceptOnOneLine(env, concept, locale)
    requires forall k :: 0 <= k < |answers| ==> ChildOnOneLine(env, answers[k], locale)
    ensures Lines(Join(ConceptTypeOpeningLines(token)
                       + ChildrenLines(env, answers, locale)
                       + SelectClosingLines(env, concept, locale, "1")))
            == ConceptTypeOpeningLines(token)
               + ChildrenLines(env, answers, locale)
               + SelectClosingLines(env, concept, locale, "1") + [""]
    ensures ValueAfter(SelectClosingLines(env, concept, locale, "1")[3], MultipleOpening) == "1"
  {
    var o := ConceptTypeOpeningLines(token);
    var ch := ChildrenLines(env, answers, locale);
    var c := SelectClosingLines(env, concept, locale, "1");
    ConceptTypeOpeningOneLine(token);
    ChildrenLinesOneLine(env, answers, locale);
    SelectClosingOneLine(env, concept, locale, "1");
    AllOneLineAppend(o, ch);
    AllOneLineAppend(o + ch, c);
    JoinedLines(o + ch + c);
    RawValueRecovered(MultipleOpening, "1", " />");
  }

  /**
   * Every child reads back with default "false" and nillable "true", and
   * with the answer's name exactly when that name holds no double quote.
   */
  lemma ChildHeadAttributes(env: Collaborators, answer: ConceptAnswer, locale: Locale)
    ensures var head := AnswerChildLines(env, answer, locale)[0];
            var name := ChildName(env, answer);
            && (ValueAfter(head, ChildNameOpening) == name <==> '"' !in name)
            && ValueAfter(head, ChildNameOpening + name + "\"" + " default=\"") == "false"
            && ValueAfter(head, ChildNameOpening + name + "\"" + " default=\"" + "false" + "\"" + " nillable=\"") == "true"
  {
    var name := ChildName(env, answer);
    assert AnswerChildLines(env, answer, locale)[0] == ChildHead(name);
    assert '"' !in "false" && '"' !in "true";
    ThreeValuesRecovered(ChildNameOpening, name, " default=\"", "false", " nillable=\"", "true", ">");
  }

  /**
   * The child's openmrs_concept read back from its line: for an answer
   * without a drug it unescapes to the concept string; it is the whole
   * value exactly unless the answer names a drug whose drug string,
   * embedded without escaping, holds a double quote.
   */
  lemma ChildConceptRecovered(env: Collaborators, answer: ConceptAnswer, locale: Locale)
    ensures var line := AnswerChildLines(env, answer, locale)[4];
            && (answer.answerDrug.None? ==>
                  UnescapeXml(ValueAfter(line, ChildConceptOpening)) == env.conceptToString(answer.answerConcept, locale))
            && (ValueAfter(line, ChildConceptOpening) == ChildConceptValue(env, answer, locale)
                <==> answer.answerDrug.None? || '"' !in env.drugToString(answer.answerDrug.value))
  {
    var value := ChildConceptValue(env, answer, locale);
    var concept := EscapeXml(env.conceptToString(answer.answerConcept, locale));
    assert AnswerChildLines(env, answer, locale)[4] == ChildConceptAttribute(value);
    RawValueRecovered(ChildConceptOpening, value, " />");
    if answer.answerDrug.Some? {
      var drug := env.drugToString(answer.answerDrug.value);
      assert '"' in value <==> '"' in drug by {
        assert value == concept + "^" + drug;
        assert '"' !in concept;
      }
    } else {
      EscapedValueRecovered(ChildConceptOpening, env.conceptToString(answer.answerConcept, locale), " />");
    }
  }

  /**
   * The two select builders test for a drug differently: for an answer
   * that names a drug but whose concept is not of the drug class,
   * selectSingle leaves the ^drug suffix out and selectMultiple puts it in.
   */
  lemma DrugTestsDiffer(env: Collaborators, answer: ConceptAnswer, locale: Locale)
    requires answer.answerDrug.Some? && answer.answerConcept.conceptClassId != env.drugClassId
    ensures EnumerationValue(env, answer, locale) == EscapeXml(env.conceptToString(answer.answerConcept, locale))
    ensures ChildConceptValue(env, answer, locale)
            == EnumerationValue(env, answer, locale) + "^" + env.drugToString(answer.answerDrug.value)
  {
  }
}
