# XForms schema fragments and patient batches

This project models two pieces of the OpenMRS XForms module in Dafny.

`FormSchemaFragment` builds the W3C XML Schema of an OpenMRS form out of fixed text pieces. It has the document header and footer, the opening and closing of the form element, and the predefined types (`_header_section`, `_other_section`, `_requiredString`, `_infopath_boolean`). It also emits one complex type per form field:
- a simple concept;
- a numeric concept, with an optional restricted simple type that carries `minInclusive` and `maxInclusive` facets;
- a single-select field, with one `xs:enumeration` per answer;
- a multiple-select field, with one boolean child per answer.

`DefaultPatientSerializer` writes a batch of patients to a `java.io.DataOutputStream` for offline clients. The batch is:
1. the patient count, then one record per patient;
2. optionally a one-byte field count, then the fields;
3. optionally a field-value count, then the values.

Each section ends the stream early when its list is null or empty.

The modules:

- `FormSchemaFragment` (form_schema_fragment.dfy) holds the schema builders.
  - The string-valued builders (`Header`, `StartForm`, `CloseForm`, `PredefinedTypes`, `NumericToString`, `Footer`) are functions.
  - `simpleConcept`, `numericConcept`, `selectSingle` and `selectMultiple` build their text by reassignment and loops, so they are methods. Each is proved equal to a specification function of its inputs: `simpleConcept` and `numericConcept` of the token, concept strings and flags, the two select methods of those and the answer list.
  - Each text is then read back through `Lines` (split at newlines) and `ValueAfter` (the value of a double-quoted attribute). That read-back states which line holds what, and which embedded value comes back intact.
- `XmlText` (xml_text.dfy) holds the shared text tools:
  - escaping of the five predefined XML entities, and its inverse;
  - attribute read-back;
  - line splitting and joining.
- `Decimal` (decimal.dfy) is the decimal text of integers (`String.valueOf(long)`), with its parser.
- `DataOutput` (data_output.dfy) follows the `java.io.DataOutput` contract.
  - `writeInt` is 4 bytes big-endian; `writeByte` keeps the low 8 bits; `writeBoolean` is one byte.
  - `writeUTF` is a 2-byte length followed by modified UTF-8. It fails without writing when the encoding is over 65535 bytes.
  - `DataOutputStream` is a class whose `written` field the write methods extend.
- `DefaultPatientSerializer` (patient_serializer.dfy) is the batch encoder.
  - The encoder is methods on a `DataOutputStream`. Its result is tied to `Serialization`, a function of the input, and the section rules are lemmas about that function.
- `Wrappers` (wrappers.dfy) holds `Option`, which models Java's null.

Collaborators whose source is not part of this model become parameters:
- In the schema builders, a `Collaborators` value of total functions: `FormEntryWrapper.getFormSchemaNamespace`, `FormUtil.conceptToString`, `drugToString` and `getXmlToken`, the concept name lookups, `XformsUtil.isAllowDecimal`, `Double.toString` and the value of `HL7Constants.CLASS_DRUG`.
- In the serializer, a `Codecs` value: `SerializationUtils.writeInteger`, `writeUTF` and `writeDate`, as the bytes each appends.

Where the text says "reads back", it means `ValueAfter(line, opening)`. When the line starts with the given opening text, this is what follows that text up to the next double quote; otherwise it is empty.

## Model

| member | source | states |
|---|---|---|
| FormSchemaFragment.Header | api/src/main/java/org/openmrs/module/xforms/formentry/FormSchemaFragment.java:42-49 | header(form): the fixed prologue, the form's namespace embedded raw in `xmlns:openmrs`, the element and attribute form defaults, then a blank line. Its properties are HeaderDeclaresNamespace. |
| FormSchemaFragment.HeaderDeclaresNamespace | api/src/main/java/org/openmrs/module/xforms/formentry/FormSchemaFragment.java:42-49 | The header starts with the fixed prologue ending in `xmlns:openmrs="`. The namespace reads back from there exactly when it holds no double quote; it is embedded without escaping. |
| FormSchemaFragment.Footer | api/src/main/java/org/openmrs/module/xforms/formentry/FormSchemaFragment.java:375-377 | footer(): the single end tag `</xs:schema>`. Its property is FooterClosesSchema. |
| FormSchemaFragment.FooterClosesSchema | api/src/main/java/org/openmrs/module/xforms/formentry/FormSchemaFragment.java:375-377 | The footer is exactly the end tag of the `xs:schema` element that the header's prologue opens. |
| FormSchemaFragment.StartForm | api/src/main/java/org/openmrs/module/xforms/formentry/FormSchemaFragment.java:56-61 | startForm(): the four fixed lines that open the form element and its header child. Its properties are StartFormLayout and StartFormHeaderChild. |
| FormSchemaFragment.StartFormLayout | api/src/main/java/org/openmrs/module/xforms/formentry/FormSchemaFragment.java:56-61 | The start of the form element splits into exactly its four lines, then an empty remainder. |
| FormSchemaFragment.StartFormHeaderChild | api/src/main/java/org/openmrs/module/xforms/formentry/FormSchemaFragment.java:60 | The header child's type reads back as `_header_section`, the complex type that the predefined types declare. |
| FormSchemaFragment.CloseForm | api/src/main/java/org/openmrs/module/xforms/formentry/FormSchemaFragment.java:74-85 | closeForm(form): the sequence end, the id, name and version attributes, the two closing tags and a blank line. Its properties are CloseFormLayout and CloseFormAttributes. |
| FormSchemaFragment.CloseFormLayout | api/src/main/java/org/openmrs/module/xforms/formentry/FormSchemaFragment.java:74-85 | For a one-line name and version, the closing splits into exactly its 8 lines (the last two blank), then an empty remainder. |
| FormSchemaFragment.CloseFormAttributes | api/src/main/java/org/openmrs/module/xforms/formentry/FormSchemaFragment.java:74-85 | For every form, on lines 1 to 3 of the closing: the id reads back as decimal text that parses to the form id. The name goes through escapeXml, so it unescapes to the name whatever it holds. The version is embedded raw and is intact exactly when it holds no quote. |
| FormSchemaFragment.PredefinedTypes | api/src/main/java/org/openmrs/module/xforms/formentry/FormSchemaFragment.java:90-115 | predefinedTypes(): the four fixed type declarations in the source's order. Its property is PredefinedTypesDeclare. |
| FormSchemaFragment.PredefinedTypesDeclare | api/src/main/java/org/openmrs/module/xforms/formentry/FormSchemaFragment.java:90-115 | The predefined types are the header-section, other-section, required-string and boolean types in that order. Their names read back as `_header_section` and `_requiredString`, and the minimum length reads back as "1". |
| FormSchemaFragment.ValueElementAttributes | api/src/main/java/org/openmrs/module/xforms/formentry/FormSchemaFragment.java:140-144 | The value child's type reads back as the given type exactly when that holds no quote. Its nillable flag reads back as "0" when required and "1" otherwise. |
| FormSchemaFragment.ConceptAttributesRecovered | api/src/main/java/org/openmrs/module/xforms/formentry/FormSchemaFragment.java:146-150 | openmrs_concept unescapes to the rendered concept whatever it holds. openmrs_datatype, embedded raw, reads back as the HL7 abbreviation exactly when that holds no quote. |
| FormSchemaFragment.ValueConceptTypeLayout | api/src/main/java/org/openmrs/module/xforms/formentry/FormSchemaFragment.java:134-151 | With one-line inputs, a value concept's type splits into exactly its lines: opening, value child, sequence end, the two concept attributes, closing tag, blank line. |
| FormSchemaFragment.SimpleConcept | api/src/main/java/org/openmrs/module/xforms/formentry/FormSchemaFragment.java:130-152 | When required and xsType is exactly "xs:string", the value child's type is `_requiredString`. In every other case it is xsType unchanged. |
| FormSchemaFragment.JavaRound | api/src/main/java/org/openmrs/module/xforms/formentry/FormSchemaFragment.java:233 | Math.round always gives a value within the long range. |
| FormSchemaFragment.JavaRoundNearest | api/src/main/java/org/openmrs/module/xforms/formentry/FormSchemaFragment.java:233 | Within the long range, Math.round(v) is the integer r with r - 1/2 <= v < r + 1/2, so halves round up. |
| FormSchemaFragment.NumericToString | api/src/main/java/org/openmrs/module/xforms/formentry/FormSchemaFragment.java:229-234 | When precise, the result is the value's Double.toString. Otherwise it is one line of decimal text, free of quotes, that parses to Math.round of the value. |
| FormSchemaFragment.NumericToStringRounds | api/src/main/java/org/openmrs/module/xforms/formentry/FormSchemaFragment.java:229-234 | Without precision, 1.5 gives "2", 1.4 gives "1" and -1.5 gives "-1". |
| FormSchemaFragment.FacetsPerBound | api/src/main/java/org/openmrs/module/xforms/formentry/FormSchemaFragment.java:186-193 | There is one facet per present bound: minInclusive first when the low bound is present, maxInclusive last when the high bound is present. Without decimals, each facet's value parses to the rounded bound. |
| FormSchemaFragment.NumericConcept | api/src/main/java/org/openmrs/module/xforms/formentry/FormSchemaFragment.java:172-216 | Without bounds there is no restricted type, and the value child has the base type: xs:float when decimals are allowed, else xs:int. With a bound, `token_restricted_type` restricts that base by the facets of the present bounds, comes first, and is the value child's type. |
| FormSchemaFragment.NumericConceptLayout | api/src/main/java/org/openmrs/module/xforms/formentry/FormSchemaFragment.java:179-214 | With a bound and one-line inputs, the text splits into the restricted type's lines, then the value type's lines. |
| FormSchemaFragment.SelectClosingMultiple | api/src/main/java/org/openmrs/module/xforms/formentry/FormSchemaFragment.java:282-293 | The end of a select type has six lines, and its multiple attribute reads back as the flag it was given. |
| FormSchemaFragment.EnumerationLines | api/src/main/java/org/openmrs/module/xforms/formentry/FormSchemaFragment.java:263-281 | There is exactly one enumeration line per answer, and line k belongs to answer k. |
| FormSchemaFragment.EnumerationValueRecovered | api/src/main/java/org/openmrs/module/xforms/formentry/FormSchemaFragment.java:266-279 | For an answer that is not a drug answer, the enumeration value unescapes to the concept string. The value reads back whole unless it is a drug answer whose drug string, embedded raw, holds a quote. |
| FormSchemaFragment.EnumerationCommentRaw | api/src/main/java/org/openmrs/module/xforms/formentry/FormSchemaFragment.java:270-279 | The enumeration line ends in ` -->` just after the comment's name, embedded unescaped: the drug's name for a drug answer, else the concept's localized name. |
| FormSchemaFragment.SelectSingle | api/src/main/java/org/openmrs/module/xforms/formentry/FormSchemaFragment.java:251-295 | The result is the joined opening lines, then one enumeration line per answer in input order, then the closing lines. |
| FormSchemaFragment.SelectSingleLayout | api/src/main/java/org/openmrs/module/xforms/formentry/FormSchemaFragment.java:254-293 | With one-line inputs, selectSingle's text splits into exactly those lines, then an empty remainder. |
| FormSchemaFragment.SelectSingleFlags | api/src/main/java/org/openmrs/module/xforms/formentry/FormSchemaFragment.java:260-292 | The value's nillable flag reads back as "0" exactly when required, and multiple reads back as "0". |
| FormSchemaFragment.ChildrenLines | api/src/main/java/org/openmrs/module/xforms/formentry/FormSchemaFragment.java:319-359 | Each answer has a child of nine lines. |
| FormSchemaFragment.ChildrenLinesAt | api/src/main/java/org/openmrs/module/xforms/formentry/FormSchemaFragment.java:319-359 | Lines 9k to 9k+8 are answer k's child, so the children come one per answer in input order. |
| FormSchemaFragment.ChildHeadAttributes | api/src/main/java/org/openmrs/module/xforms/formentry/FormSchemaFragment.java:326-348 | Every child's default reads back as "false" and its nillable as "true". Its name reads back as the answer's XML token (of the drug name with a drug, else of the concept name) exactly when that holds no quote. |
| FormSchemaFragment.ChildConceptRecovered | api/src/main/java/org/openmrs/module/xforms/formentry/FormSchemaFragment.java:332-337 | For an answer without a drug, the child's openmrs_concept unescapes to the concept string. It reads back whole exactly when there is no drug or the drug string, embedded raw, holds no quote. |
| FormSchemaFragment.SelectMultiple | api/src/main/java/org/openmrs/module/xforms/formentry/FormSchemaFragment.java:310-370 | The result is the joined type opening, then one child per answer in input order, then the closing lines with multiple "1". |
| FormSchemaFragment.SelectMultipleLayout | api/src/main/java/org/openmrs/module/xforms/formentry/FormSchemaFragment.java:312-368 | With one-line inputs, selectMultiple's text splits into exactly those lines, and multiple reads back as "1". |
| FormSchemaFragment.DrugTestsDiffer | api/src/main/java/org/openmrs/module/xforms/formentry/FormSchemaFragment.java:266-336 | Take an answer that names a drug but whose concept is not of the drug class. selectSingle's value for it has no ^drug suffix; selectMultiple's value for it is that same value plus ^drug. |
| XmlText.EscapeXml | api/src/main/java/org/openmrs/module/xforms/formentry/FormSchemaFragment.java:80 | Escaped text holds no raw `<`, `>`, `"` or `'`. Each of its characters comes from the input or from an entity reference, and it is never shorter than the input. |
| XmlText.UnescapeEscape | api/src/main/java/org/openmrs/module/xforms/formentry/FormSchemaFragment.java:80 | Unescaping inverts escaping, so escaping loses nothing. |
| XmlText.EscapedValueRecovered | api/src/main/java/org/openmrs/module/xforms/formentry/FormSchemaFragment.java:79-81 | Any text embedded escaped as an attribute value reads back and unescapes to itself. |
| XmlText.RawValueRecovered | api/src/main/java/org/openmrs/module/xforms/formentry/FormSchemaFragment.java:82-83 | Text embedded raw as an attribute value reads back intact exactly when it holds no double quote. |
| XmlText.LinesJoin | api/src/main/java/org/openmrs/module/xforms/formentry/FormSchemaFragment.java:57-60 | One-line lines joined with newlines split back into the same lines. |
| Decimal.IntToString | api/src/main/java/org/openmrs/module/xforms/formentry/FormSchemaFragment.java:77 | The decimal text that Java's string concatenation gives an int. Its properties are ParseIntToString and IntToStringCharacters: digits, possibly after a minus sign. |
| Decimal.ParseIntToString | api/src/main/java/org/openmrs/module/xforms/formentry/FormSchemaFragment.java:77 | The decimal text of an integer parses back to that integer. |
| DataOutput.ReadInt32BE | src/org/openmrs/module/xforms/DefaultPatientSerializer.java:89 | The 4 big-endian bytes of writeInt read back as the same int. |
| DataOutput.ReadUint16BE | src/org/openmrs/module/xforms/DefaultPatientSerializer.java:99 | The 2-byte length prefix of writeUTF reads back as the length. |
| DataOutput.ModifiedUtf8 | src/org/openmrs/module/xforms/DefaultPatientSerializer.java:99 | Modified UTF-8 never contains a zero byte and is at least as long as the text. |
| DataOutput.ReadModifiedUtf8Round | src/org/openmrs/module/xforms/DefaultPatientSerializer.java:99 | Modified UTF-8 decodes back to the text, including characters that need surrogate pairs. |
| DataOutput.EncodedUtfLayout | src/org/openmrs/module/xforms/DefaultPatientSerializer.java:99 | writeUTF succeeds exactly when the encoding is at most 65535 bytes. On success, the 2-byte prefix reads back as the number of bytes after it, those bytes hold no zero byte, and they decode to the text. |
| DataOutput.DataOutputStream.WriteInt | src/org/openmrs/module/xforms/DefaultPatientSerializer.java:98 | Appends the 4 big-endian bytes of the int, and nothing else changes. |
| DataOutput.DataOutputStream.WriteByte | src/org/openmrs/module/xforms/DefaultPatientSerializer.java:96 | Appends one byte holding the low 8 bits of the int. |
| DataOutput.DataOutputStream.WriteBoolean | src/org/openmrs/module/xforms/DefaultPatientSerializer.java:64-66 | Appends one byte: 1 for true, 0 for false. |
| DataOutput.DataOutputStream.WriteUtf | src/org/openmrs/module/xforms/DefaultPatientSerializer.java:99 | Reports success exactly when the text fits. On success it appends the length-prefixed encoding; on failure the stream is unchanged. |
| DefaultPatientSerializer.PatientRecord | src/org/openmrs/module/xforms/DefaultPatientSerializer.java:48-71 | The bytes serialize(patient, dos) appends. Its properties are SerializePatient and PatientRecordEnds. |
| DefaultPatientSerializer.SerializePatient | src/org/openmrs/module/xforms/DefaultPatientSerializer.java:48-71 | Appends the patient's record and nothing else: id, the four name parts, gender, birthdate, identifier or a false byte, then a false byte. |
| DefaultPatientSerializer.PatientRecordEnds | src/org/openmrs/module/xforms/DefaultPatientSerializer.java:60-66 | Every record ends with a false byte. A patient without an identifier ends with two false bytes. |
| DefaultPatientSerializer.Serialization | src/org/openmrs/module/xforms/DefaultPatientSerializer.java:77-116 | The bytes serialize(data, dos) appends: each section, and each early return or writeUTF stop. Its properties are the section lemmas below. |
| DefaultPatientSerializer.Serialize | src/org/openmrs/module/xforms/DefaultPatientSerializer.java:77-116 | Appends exactly Serialization(data), including every early return and the stop after a failed writeUTF. |
| DefaultPatientSerializer.SerializePatients | src/org/openmrs/module/xforms/DefaultPatientSerializer.java:90-91 | Appends the records of the patients in list order. |
| DefaultPatientSerializer.SerializeFields | src/org/openmrs/module/xforms/DefaultPatientSerializer.java:97-100 | Appends each field's id and writeUTF(name), stopping right after the id of the first name that does not fit, and reports whether all fitted. |
| DefaultPatientSerializer.SerializeValues | src/org/openmrs/module/xforms/DefaultPatientSerializer.java:107-111 | Appends each value's field id, patient id and writeUTF(value), with the same stop rule. |
| DefaultPatientSerializer.NothingWithoutPatients | src/org/openmrs/module/xforms/DefaultPatientSerializer.java:79-87 | Nothing at all is written, not even a zero count, exactly when data is null or the patient list is null or empty. |
| DefaultPatientSerializer.StartsWithPatientCount | src/org/openmrs/module/xforms/DefaultPatientSerializer.java:89-91 | Otherwise the output starts with the 4-byte patient count, then the records. The first 4 bytes read back as patients.size(). |
| DefaultPatientSerializer.PatientRecordsAppend | src/org/openmrs/module/xforms/DefaultPatientSerializer.java:90-91 | The records of two lists in a row are the records of the first list, then those of the second. |
| DefaultPatientSerializer.PatientRecordsInOrder | src/org/openmrs/module/xforms/DefaultPatientSerializer.java:90-91 | Patient k's record comes after the records of patients 0 to k-1 and before the rest. |
| DefaultPatientSerializer.NoFieldsNoValues | src/org/openmrs/module/xforms/DefaultPatientSerializer.java:93-95 | With a null or empty field list, the output ends after the last record, even when field values exist. |
| DefaultPatientSerializer.FieldCountByte | src/org/openmrs/module/xforms/DefaultPatientSerializer.java:96-100 | With fields, the byte after the records is fields.size() mod 256, and the fields follow. For lists of at most Integer.MAX_VALUE fields, that is the list length mod 256. |
| DefaultPatientSerializer.FieldsCompleteIffNamesFit | src/org/openmrs/module/xforms/DefaultPatientSerializer.java:97-100 | Every field is written exactly when every field name fits writeUTF. |
| DefaultPatientSerializer.FieldsStopAtOverlongName | src/org/openmrs/module/xforms/DefaultPatientSerializer.java:97-100 | At the first name that does not fit, the earlier fields and that field's id are written, and nothing after. |
| DefaultPatientSerializer.FieldEntryLayout | src/org/openmrs/module/xforms/DefaultPatientSerializer.java:97-99 | A field's entry is its 4-byte id, which reads back as the id, then writeUTF of its name. |
| DefaultPatientSerializer.FieldsWrittenAppend | src/org/openmrs/module/xforms/DefaultPatientSerializer.java:97-100 | When the first list is written completely, writing two lists in a row is writing the first, then the second. |
| DefaultPatientSerializer.FieldsInOrder | src/org/openmrs/module/xforms/DefaultPatientSerializer.java:97-100 | When field k and those before it fit writeUTF, field k's entry comes after the entries of fields 0 to k-1 and before those of the rest. |
| DefaultPatientSerializer.ValueSectionFollows | src/org/openmrs/module/xforms/DefaultPatientSerializer.java:102-111 | When every field was written and values exist, the values' 4-byte count and the values follow the fields. The count reads back as fieldVals.size(). |
| DefaultPatientSerializer.ValueEntryLayout | src/org/openmrs/module/xforms/DefaultPatientSerializer.java:108-110 | A value's entry is its 4-byte field id and 4-byte patient id, each reading back as that id, then writeUTF of the value. |
| DefaultPatientSerializer.ValuesWrittenAppend | src/org/openmrs/module/xforms/DefaultPatientSerializer.java:107-111 | When the first list is written completely, writing two lists in a row is writing the first, then the second. |
| DefaultPatientSerializer.ValuesInOrder | src/org/openmrs/module/xforms/DefaultPatientSerializer.java:107-111 | When value k and those before it fit writeUTF, value k's entry comes after the entries of values 0 to k-1 and before those of the rest. |
| DefaultPatientSerializer.ValuesCompleteIffValuesFit | src/org/openmrs/module/xforms/DefaultPatientSerializer.java:107-111 | Every value is written exactly when every value fits writeUTF. |
| DefaultPatientSerializer.ValuesStopAtOverlongValue | src/org/openmrs/module/xforms/DefaultPatientSerializer.java:107-111 | At the first value that does not fit, the earlier values and that value's two ids are written, and nothing after. |
| DefaultPatientSerializer.NoValueSection | src/org/openmrs/module/xforms/DefaultPatientSerializer.java:102-105 | When a field name did not fit, or the value list is null or empty, nothing follows the fields. |
| DefaultPatientSerializer.DeSerialize | src/org/openmrs/module/xforms/DefaultPatientSerializer.java:122-125 | Always null, whatever the input. |

## Left out

- XmlText.EscapeXml: only the five predefined entities are modelled. commons-lang's numeric escapes for characters outside ASCII are not.
- FormSchemaFragment.NumericToString: with decimals allowed, the text is an opaque `Double.toString` parameter. A bound is a `real`, so NaN, the infinities and the rounding of a double's decimal expansion are not modelled.
- FormSchemaFragment.JavaRound: Math.round on NaN (0) and the infinities is not modelled. Inputs beyond the long range clamp to the nearest end, as Math.round does.
- The collaborators are parameters and their own behaviour is not modelled: the concept, drug and namespace renderers, getXmlToken, the name lookups, isAllowDecimal and the value of HL7Constants.CLASS_DRUG.
- The layout lemmas (the members named ...Layout, and ChildrenLines) require every embedded string to hold no newline: the form name and version, the token, xsType, the XML tokens and the collaborator strings. A newline in them would split a line, which those lemmas do not describe. The read-back lemmas have no such requirement.
- SerializationUtils.writeInteger, writeUTF and writeDate are opaque total encoders. Their formats, and an IOException thrown inside them, are not modelled. Such an exception would be caught per patient, cutting that record short while the loop went on.
- The IOException of the stream itself and the log.error calls in both catch blocks are left out. The only failure modelled is writeUTF's over-long string, which ends the batch.
- Nulls that the source concatenates into text are not modelled; Java would render each as the four characters `null`, and the model takes a string instead. These are the form id, version and name (escapeXml of a null name is null), the namespace, the HL7 abbreviation, the drug string, and xsType when required is false (the source then skips its `equals` test but still concatenates it).
- Nulls the source would dereference are ruled out by the types: a null PersonName, field id, field name, field value, value id, or a null element of a list.
- The cast of `data` to PatientData is assumed to succeed; a ClassCastException is not modelled.
- The pluggable serializer class mechanism and the DataInputStream side are not modelled. deSerialize reads nothing.
- DataOutput.ModifiedUtf8: a Java string may hold unpaired surrogates, each of which writeUTF encodes as 3 bytes. A Dafny `char` is a Unicode scalar value and cannot hold one, so only well-formed text is modelled.
- DataOutput.ReadModifiedUtf8: the decoder is a partner only for bytes the encoder produces, and does not reject malformed continuation bytes.
- Locale is an opaque value, used only as an argument of the name lookups.
