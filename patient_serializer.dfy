/**
 * DefaultPatientSerializer: the batch of patients sent to offline clients,
 * as bytes appended to a DataOutputStream. The batch is a patient count and
 * one record per patient, then, when there are fields, a one-byte field
 * count and the fields, then, when there are field values, their count and
 * the values.
 *
 * SerializationUtils is not part of this model: its three encoders are
 * fields of Codecs, so everything below holds whatever bytes they produce.
 */
module DefaultPatientSerializer {
  import opened Wrappers
  import opened DataOutput
  import opened Sequences

  /** A java.util.Date, by its milliseconds since the epoch. */
  datatype Date = Date(time: int)

  datatype PersonName = PersonName(prefix: Option<string>, familyName: Option<string>,
                                   middleName: Option<string>, givenName: Option<string>)

  /** A patient; the identifier is the text of its toString. */
  datatype Patient = Patient(patientId: Option<Int32>, personName: PersonName, gender: Option<string>,
                             birthdate: Option<Date>, patientIdentifier: Option<string>)

  datatype PatientTableField = PatientTableField(id: Int32, name: string)

  /** A value of a patient table field; the value is the text of its toString. */
  datatype PatientTableFieldValue = PatientTableFieldValue(fieldId: Int32, patientId: Int32, value: string)

  datatype PatientData = PatientData(patients: Option<seq<Patient>>, fields: Option<seq<PatientTableField>>,
                                     fieldValues: Option<seq<PatientTableFieldValue>>)

  /** SerializationUtils.writeInteger, writeUTF and writeDate, as the bytes each appends. */
  datatype Codecs = Codecs(writeInteger: Option<Int32> -> seq<byte>,
                           writeUtf: Option<string> -> seq<byte>,
                           writeDate: Option<Date> -> seq<byte>)

  /** List.size(): the number of elements, or Integer.MAX_VALUE when there are more. */
  function Size(n: nat): Int32 {
    if n > MaxInt then MaxInt else n
  }

  // ---------------------------------------------------------------------
  // The bytes the encoder writes

  /** The identifier's text, or a single false byte when the patient has none. */
  function IdentifierBytes(codecs: Codecs, patient: Patient): seq<byte> {
    if patient.patientIdentifier.Some? then codecs.writeUtf(Some(patient.patientIdentifier.value)) else [0]
  }

  /**
   * One patient: id, prefix, family, middle and given names, gender,
   * birthdate, the identifier, and the false byte that marks the patient
   * as not new.
   */
  function PatientRecord(codecs: Codecs, patient: Patient): seq<byte> {
    var name := patient.personName;
    codecs.writeInteger(patient.patientId)
    + codecs.writeUtf(name.prefix) + codecs.writeUtf(name.familyName)
    + codecs.writeUtf(name.middleName) + codecs.writeUtf(name.givenName)
    + codecs.writeUtf(patient.gender) + codecs.writeDate(patient.birthdate)
    + IdentifierBytes(codecs, patient) + [0]
  }

  /** The records of the patients, one after another. */
  function PatientRecords(codecs: Codecs, patients: seq<Patient>): seq<byte> {
    if patients == [] then []
    else PatientRecords(codecs, patients[..|patients| - 1]) + PatientRecord(codecs, patients[|patients| - 1])
  }

  /** Bytes written, and whether writing went on to the end or stopped at a failed writeUTF. */
  datatype Written = Written(bytes: seq<byte>, complete: bool)

  /** One field: its id, then its name by writeUTF; None when the name does not fit writeUTF. */
  function FieldEntry(field: PatientTableField): Option<seq<byte>> {
    var name := EncodedUtf(field.name);
    if name.None? then None else Some(Int32BE(field.id) + name.value)
  }

  /**
   * The fields, one after another; at the first name that does not fit
   * writeUTF the id is already written and writing stops.
   */
  function FieldsWritten(fields: seq<PatientTableField>): Written {
    if fields == [] then Written([], true)
    else
      var before := FieldsWritten(fields[..|fields| - 1]);
      var field := fields[|fields| - 1];
      if !before.complete then before
      else if FieldEntry(field).None? then Written(before.bytes + Int32BE(field.id), false)
      else Written(before.bytes + FieldEntry(field).value, true)
  }

  /** One value: field id, patient id, then the value by writeUTF; None when it does not fit. */
  function ValueEntry(value: PatientTableFieldValue): Option<seq<byte>> {
    var text := EncodedUtf(value.value);
    if text.None? then None else Some(Int32BE(value.fieldId) + Int32BE(value.patientId) + text.value)
  }

  /** The field values, one after another, stopping at the first value that does not fit writeUTF. */
  function ValuesWritten(values: seq<PatientTableFieldValue>): Written {
    if values == [] then Written([], true)
    else
      var before := ValuesWritten(values[..|values| - 1]);
      var value := values[|values| - 1];
      if !before.complete then before
      else if ValueEntry(value).None? then Written(before.bytes + Int32BE(value.fieldId) + Int32BE(value.patientId), false)
      else Written(before.bytes + ValueEntry(value).value, true)
  }

  predicate Absent<T>(list: Option<seq<T>>) {
    list.None? || |list.value| == 0
  }

  /** The count and the records of the patients. */
  function PatientSection(codecs: Codecs, patients: seq<Patient>): seq<byte> {
    Int32BE(Size(|patients|)) + PatientRecords(codecs, patients)
  }

  /** The field count, as one byte holding size mod 256, then the fields. */
  function FieldSection(fields: seq<PatientTableField>): seq<byte> {
    [Size(|fields|) % 0x100] + FieldsWritten(fields).bytes
  }

  function ValueSection(values: seq<PatientTableFieldValue>): seq<byte> {
    Int32BE(Size(|values|)) + ValuesWritten(values).bytes
  }

  /** Everything serialize(dos, data) appends to the stream. */
  function Serialization(codecs: Codecs, data: Option<PatientData>): seq<byte> {
    if data.None? || Absent(data.value.patients) then []
    else
      var d := data.value;
      var patients := PatientSection(codecs, d.patients.value);
      if Absent(d.fields) then patients
      else
        var fields := patients + FieldSection(d.fields.value);
        if !FieldsWritten(d.fields.value).complete || Absent(d.fieldValues) then fields
        else fields + ValueSection(d.fieldValues.value)
  }

  // ---------------------------------------------------------------------
  // What the bytes say

  /** The patient section, then, when it is there, the field section. */
  lemma SerializationLayout(codecs: Codecs, data: Option<PatientData>)
    requires data.Some? && !Absent(data.value.patients)
    ensures PatientSection(codecs, data.value.patients.value) <= Serialization(codecs, data)
    ensures !Absent(data.value.fields) ==>
              PatientSection(codecs, data.value.patients.value) + FieldSection(data.value.fields.value)
              <= Serialization(codecs, data)
  {
    var d := data.value;
    var head := PatientSection(codecs, d.patients.value);
    if !Absent(d.fields) {
      var fields := head + FieldSection(d.fields.value);
      var out := Serialization(codecs, data);
      assert out[..|fields|] == fields;
      assert fields[..|head|] == head;
      assert out[..|head|] == fields[..|head|];
    }
  }

  /**
   * Nothing at all is written, not even a zero count, exactly when there
   * is no data or no patient.
   */
  lemma NothingWithoutPatients(codecs: Codecs, data: Option<PatientData>)
    ensures Serialization(codecs, data) == [] <==> data.None? || Absent(data.value.patients)
  {
    if !(data.None? || Absent(data.value.patients)) {
      SerializationLayout(codecs, data);
      assert |PatientSection(codecs, data.value.patients.value)| >= 4;
    }
  }

  /**
   * With patients, the output starts with their count, which readInt reads
   * back, followed by the records of the patients.
   */
  lemma StartsWithPatientCount(codecs: Codecs, data: Option<PatientData>)
    requires data.Some? && !Absent(data.value.patients)
    ensures var ps := data.value.patients.value;
            var out := Serialization(codecs, data);
            && Int32BE(Size(|ps|)) + PatientRecords(codecs, ps) <= out
            && ReadInt32(out[..4]) == Size(|ps|)
  {
    var ps := data.value.patients.value;
    var out := Serialization(codecs, data);
    var head := PatientSection(codecs, ps);
    SerializationLayout(codecs, data);
    assert out[..4] == head[..4] == Int32BE(Size(|ps|));
    ReadInt32BE(Size(|ps|));
  }

  lemma {:induction false} PatientRecordsAppend(codecs: Codecs, a: seq<Patient>, b: seq<Patient>)
    ensures PatientRecords(codecs, a + b) == PatientRecords(codecs, a) + PatientRecords(codecs, b)
  {
    if b == [] {
      assert a + b == a;
    } else {
      var n := |b| - 1;
      assert (a + b)[..|a + b| - 1] == a + b[..n];
      assert (a + b)[|a + b| - 1] == b[n];
      calc {
        PatientRecords(codecs, a + b);
        PatientRecords(codecs, a + b[..n]) + PatientRecord(codecs, b[n]);
        { PatientRecordsAppend(codecs, a, b[..n]); }
        PatientRecords(codecs, a) + PatientRecords(codecs, b[..n]) + PatientRecord(codecs, b[n]);
        { AppendAssoc(PatientRecords(codecs, a), PatientRecords(codecs, b[..n]), PatientRecord(codecs, b[n])); }
        PatientRecords(codecs, a) + PatientRecords(codecs, b);
      }
    }
  }

  /** The records are in input order: the records of a list are those of its parts, one after the other. */
  lemma PatientRecordsInOrder(codecs: Codecs, patients: seq<Patient>, k: nat)
    requires k < |patients|
    ensures PatientRecords(codecs, patients)
            == PatientRecords(codecs, patients[..k]) + PatientRecord(codecs, patients[k])
               + PatientRecords(codecs, patients[k + 1..])
  {
    assert patients == patients[..k] + [patients[k]] + patients[k + 1..];
    PatientRecordsAppend(codecs, patients[..k] + [patients[k]], patients[k + 1..]);
    PatientRecordsAppend(codecs, patients[..k], [patients[k]]);
    assert [patients[k]][..0] == [];
  }

  /**
   * Every record ends with the false "new patient" byte; a patient without
   * an identifier ends with two false bytes, the first standing for the
   * missing identifier.
   */
  lemma PatientRecordEnds(codecs: Codecs, patient: Patient)
    ensures var r := PatientRecord(codecs, patient);
            && |r| >= 1 && r[|r| - 1] == 0
            && (patient.patientIdentifier.None? ==> |r| >= 2 && r[|r| - 2..] == [0, 0])
  {
  }

  /**
   * Without fields, the output ends right after the last patient record,
   * and the values are left out even when there are some.
   */
  lemma NoFieldsNoValues(codecs: Codecs, data: Option<PatientData>)
    requires data.Some? && !Absent(data.value.patients) && Absent(data.value.fields)
    ensures Serialization(codecs, data) == PatientSection(codecs, data.value.patients.value)
  {
  }

  /**
   * With fields, the byte after the patient records is the number of
   * fields mod 256, and the fields follow it.
   */
  lemma FieldCountByte(codecs: Codecs, data: Option<PatientData>)
    requires data.Some? && !Absent(data.value.patients) && !Absent(data.value.fields)
    ensures var head := PatientSection(codecs, data.value.patients.value);
            var fs := data.value.fields.value;
            var out := Serialization(codecs, data);
            && head + [Size(|fs|) % 256] + FieldsWritten(fs).bytes <= out
            && (|fs| <= MaxInt ==> out[|head|] == |fs| % 256)
  {
    var head := PatientSection(codecs, data.value.patients.value);
    var fs := data.value.fields.value;
    var out := Serialization(codecs, data);
    SerializationLayout(codecs, data);
    assert head + FieldSection(fs) == head + [Size(|fs|) % 256] + FieldsWritten(fs).bytes;
    assert out[|head|] == (head + FieldSection(fs))[|head|];
  }

  /** The field section is complete exactly when every field's name fits writeUTF. */
  lemma {:induction false} FieldsCompleteIffNamesFit(fields: seq<PatientTableField>)
    ensures FieldsWritten(fields).complete <==> forall k :: 0 <= k < |fields| ==> EncodedUtf(fields[k].name).Some?
  {
    if fields != [] {
      var n := |fields| - 1;
      FieldsCompleteIffNamesFit(fields[..n]);
      assert forall k :: 0 <= k < n ==> fields[..n][k] == fields[k];
    }
  }

  /** Once writing has stopped, the later fields add nothing. */
  lemma {:induction false} FieldsStopped(fields: seq<PatientTableField>, j: nat)
    requires j <= |fields| && !FieldsWritten(fields[..j]).complete
    ensures FieldsWritten(fields) == FieldsWritten(fields[..j])
  {
    if j < |fields| {
      var n := |fields| - 1;
      assert fields[..n][..j] == fields[..j];
      FieldsStopped(fields[..n], j);
    } else {
      assert fields[..j] == fields;
    }
  }

  /**
   * At the first field whose name does not fit writeUTF, the fields before
   * it and its id are written, and nothing after.
   */
  lemma FieldsStopAtOverlongName(fields: seq<PatientTableField>, k: nat)
    requires k < |fields| && EncodedUtf(fields[k].name).None?
    requires forall j :: 0 <= j < k ==> EncodedUtf(fields[j].name).Some?
    ensures FieldsWritten(fields) == Written(FieldsWritten(fields[..k]).bytes + Int32BE(fields[k].id), false)
  {
    FieldsCompleteIffNamesFit(fields[..k]);
    assert fields[..k + 1][..k] == fields[..k];
    FieldsStopped(fields, k + 1);
  }

  /** Once writing has stopped, the later values add nothing. */
  lemma {:induction false} ValuesStopped(values: seq<PatientTableFieldValue>, j: nat)
    requires j <= |values| && !ValuesWritten(values[..j]).complete
    ensures ValuesWritten(values) == ValuesWritten(values[..j])
  {
    if j < |values| {
      var n := |values| - 1;
      assert values[..n][..j] == values[..j];
      ValuesStopped(values[..n], j);
    } else {
      assert values[..j] == values;
    }
  }

  /**
   * The value section follows the fields only when every field was
   * written and there are values: it is the count of the values, which
   * readInt reads back, then the values.
   */
  lemma ValueSectionFollows(codecs: Codecs, data: Option<PatientData>)
    requires data.Some? && !Absent(data.value.patients) && !Absent(data.value.fields)
    requires FieldsWritten(data.value.fields.value).complete && !Absent(data.value.fieldValues)
    ensures var d := data.value;
            var vs := d.fieldValues.value;
            && Serialization(codecs, data)
               == PatientSection(codecs, d.patients.value) + FieldSection(d.fields.value) + ValueSection(vs)
            && ReadInt32(ValueSection(vs)[..4]) == Size(|vs|)
  {
    var vs := data.value.fieldValues.value;
    assert ValueSection(vs)[..4] == Int32BE(Size(|vs|));
    ReadInt32BE(Size(|vs|));
  }

  /** Otherwise nothing follows the fields. */
  lemma NoValueSection(codecs: Codecs, data: Option<PatientData>)
    requires data.Some? && !Absent(data.value.patients) && !Absent(data.value.fields)
    requires !FieldsWritten(data.value.fields.value).complete || Absent(data.value.fieldValues)
    ensures Serialization(codecs, data)
            == PatientSection(codecs, data.value.patients.value) + FieldSection(data.value.fields.value)
  {
  }

  /** The bytes of one field: its id, which readInt reads back, then writeUTF of its name. */
  lemma FieldEntryLayout(field: PatientTableField)
    requires FieldEntry(field).Some?
    ensures var e := FieldEntry(field).value;
            && |e| >= 6
            && ReadInt32(e[..4]) == field.id
            && e[4..] == EncodedUtf(field.name).value
  {
    var e := FieldEntry(field).value;
    assert e[..4] == Int32BE(field.id);
    ReadInt32BE(field.id);
    EncodedUtfLayout(field.name);
  }

  /** The bytes of one value: field id and patient id, which readInt reads back, then writeUTF of the value. */
  lemma ValueEntryLayout(value: PatientTableFieldValue)
    requires ValueEntry(value).Some?
    ensures var e := ValueEntry(value).value;
            && |e| >= 10
            && ReadInt32(e[..4]) == value.fieldId
            && ReadInt32(e[4..8]) == value.patientId
            && e[8..] == EncodedUtf(value.value).value
  {
    var e := ValueEntry(value).value;
    assert e[..4] == Int32BE(value.fieldId);
    assert e[4..8] == Int32BE(value.patientId);
    ReadInt32BE(value.fieldId);
    ReadInt32BE(value.patientId);
    EncodedUtfLayout(value.value);
  }

  /**
   * Once the fields of one list are all written, the fields of the next
   * are written after them, with the same stop rule.
   */
  lemma {:induction false} FieldsWrittenAppend(a: seq<PatientTableField>, b: seq<PatientTableField>)
    requires FieldsWritten(a).complete
    ensures FieldsWritten(a + b) == Written(FieldsWritten(a).bytes + FieldsWritten(b).bytes, FieldsWritten(b).complete)
  {
    if b == [] {
      assert a + b == a;
    } else {
      var n := |b| - 1;
      assert (a + b)[..|a + b| - 1] == a + b[..n];
      assert (a + b)[|a + b| - 1] == b[n];
      FieldsWrittenAppend(a, b[..n]);
      var before := FieldsWritten(b[..n]).bytes;
      if FieldsWritten(b[..n]).complete {
        if FieldEntry(b[n]).None? {
          AppendAssoc(FieldsWritten(a).bytes, before, Int32BE(b[n].id));
        } else {
          AppendAssoc(FieldsWritten(a).bytes, before, FieldEntry(b[n]).value);
        }
      }
    }
  }

  /**
   * Once the values of one list are all written, the values of the next
   * are written after them, with the same stop rule.
   */
  lemma {:induction false} ValuesWrittenAppend(a: seq<PatientTableFieldValue>, b: seq<PatientTableFieldValue>)
    requires ValuesWritten(a).complete
    ensures ValuesWritten(a + b) == Written(ValuesWritten(a).bytes + ValuesWritten(b).bytes, ValuesWritten(b).complete)
  {
    if b == [] {
      assert a + b == a;
    } else {
      var n := |b| - 1;
      assert (a + b)[..|a + b| - 1] == a + b[..n];
      assert (a + b)[|a + b| - 1] == b[n];
      ValuesWrittenAppend(a, b[..n]);
      var before := ValuesWritten(b[..n]).bytes;
      if ValuesWritten(b[..n]).complete {
        if ValueEntry(b[n]).None? {
          var ids := Int32BE(b[n].fieldId) + Int32BE(b[n].patientId);
          AppendAssoc(ValuesWritten(a).bytes + before, Int32BE(b[n].fieldId), Int32BE(b[n].patientId));
          AppendAssoc(ValuesWritten(a).bytes, before, ids);
          AppendAssoc(before, Int32BE(b[n].fieldId), Int32BE(b[n].patientId));
        } else {
          AppendAssoc(ValuesWritten(a).bytes, before, ValueEntry(b[n]).value);
        }
      }
    }
  }

  /** A single field that fits is written as its entry. */
  lemma FieldsWrittenSingle(field: PatientTableField)
    requires FieldEntry(field).Some?
    ensures FieldsWritten([field]) == Written(FieldEntry(field).value, true)
  {
    assert [field][..0] == [];
  }

  lemma ValuesWrittenSingle(value: PatientTableFieldValue)
    requires ValueEntry(value).Some?
    ensures ValuesWritten([value]) == Written(ValueEntry(value).value, true)
  {
    assert [value][..0] == [];
  }

  /**
   * The fields are written in list order: when field k and those before
   * it fit writeUTF, field k's entry comes after those of fields 0 to k-1
   * and before the rest.
   */
  lemma {:induction false} FieldsInOrder(fields: seq<PatientTableField>, k: nat)
    requires k < |fields|
    requires forall j :: 0 <= j <= k ==> EncodedUtf(fields[j].name).Some?
    ensures FieldsWritten(fields).bytes
            == FieldsWritten(fields[..k]).bytes + FieldEntry(fields[k]).value + FieldsWritten(fields[k + 1..]).bytes
  {
    FieldsPrefixComplete(fields, k);
    var pre, x, post := fields[..k], fields[k], fields[k + 1..];
    assert fields == pre + [x] + post;
    FieldsSplit(pre, x, post);
  }

  lemma {:induction false} FieldsPrefixComplete(fields: seq<PatientTableField>, k: nat)
    requires k <= |fields|
    requires forall j :: 0 <= j < k ==> EncodedUtf(fields[j].name).Some?
    ensures FieldsWritten(fields[..k]).complete
  {
    var pre := fields[..k];
    assert forall j :: 0 <= j < |pre| ==> pre[j] == fields[j];
    FieldsCompleteIffNamesFit(pre);
  }

  lemma {:induction false} FieldsSplit(pre: seq<PatientTableField>, x: PatientTableField, post: seq<PatientTableField>)
    requires FieldsWritten(pre).complete && FieldEntry(x).Some?
    ensures FieldsWritten(pre + [x] + post).bytes == FieldsWritten(pre).bytes + FieldEntry(x).value + FieldsWritten(post).bytes
  {
    FieldsWrittenSingle(x);
    FieldsWrittenAppend(pre, [x]);
    FieldsWrittenAppend(pre + [x], post);
  }

  /**
   * The values are written in list order: when value k and those before
   * it fit writeUTF, value k's entry comes after those of values 0 to k-1
   * and before the rest.
   */
  lemma {:induction false} ValuesInOrder(values: seq<PatientTableFieldValue>, k: nat)
    requires k < |values|
    requires forall j :: 0 <= j <= k ==> EncodedUtf(values[j].value).Some?
    ensures ValuesWritten(values).bytes
            == ValuesWritten(values[..k]).bytes + ValueEntry(values[k]).value + ValuesWritten(values[k + 1..]).bytes
  {
    ValuesPrefixComplete(values, k);
    var pre, x, post := values[..k], values[k], values[k + 1..];
    assert values == pre + [x] + post;
    ValuesSplit(pre, x, post);
  }

  lemma {:induction false} ValuesPrefixComplete(values: seq<PatientTableFieldValue>, k: nat)
    requires k <= |values|
    requires forall j :: 0 <= j < k ==> EncodedUtf(values[j].value).Some?
    ensures ValuesWritten(values[..k]).complete
  {
    var pre := values[..k];
    assert forall j :: 0 <= j < |pre| ==> pre[j] == values[j];
    ValuesCompleteIffValuesFit(pre);
  }

  lemma {:induction false} ValuesSplit(pre: seq<PatientTableFieldValue>, x: PatientTableFieldValue, post: seq<PatientTableFieldValue>)
    requires ValuesWritten(pre).complete && ValueEntry(x).Some?
    ensures ValuesWritten(pre + [x] + post).bytes == ValuesWritten(pre).bytes + ValueEntry(x).value + ValuesWritten(post).bytes
  {
    ValuesWrittenSingle(x);
    ValuesWrittenAppend(pre, [x]);
    ValuesWrittenAppend(pre + [x], post);
  }

  /** The value section is complete exactly when every value fits writeUTF. */
  lemma {:induction false} ValuesCompleteIffValuesFit(values: seq<PatientTableFieldValue>)
    ensures ValuesWritten(values).complete <==> forall k :: 0 <= k < |values| ==> EncodedUtf(values[k].value).Some?
  {
    if values != [] {
      var n := |values| - 1;
      var pre := values[..n];
      ValuesCompleteIffValuesFit(pre);
      assert forall k :: 0 <= k < n ==> pre[k] == values[k];
      assert ValuesWritten(values).complete <==> ValuesWritten(pre).complete && ValueEntry(values[n]).Some?;
    }
  }

  /**
   * At the first value that does not fit writeUTF, the values before it
   * and its two ids are written, and nothing after.
   */
  lemma ValuesStopAtOverlongValue(values: seq<PatientTableFieldValue>, k: nat)
    requires k < |values| && EncodedUtf(values[k].value).None?
    requires forall j :: 0 <= j < k ==> EncodedUtf(values[j].value).Some?
    ensures ValuesWritten(values)
            == Written(ValuesWritten(values[..k]).bytes + Int32BE(values[k].fieldId) + Int32BE(values[k].patientId), false)
  {
    ValuesCompleteIffValuesFit(values[..k]);
    assert values[..k + 1][..k] == values[..k];
    ValuesStopped(values, k + 1);
  }

  // ---------------------------------------------------------------------
  // The encoder

  /** serialize(patient, dos): appends the patient's record. */
  method SerializePatient(dos: DataOutputStream, codecs: Codecs, patient: Patient)
    modifies dos
    ensures dos.written == old(dos.written) + PatientRecord(codecs, patient)
  {
    ghost var start := dos.written;
    dos.Write(codecs.writeInteger(patient.patientId));
    ghost var record := codecs.writeInteger(patient.patientId);
    var personName := patient.personName;
    dos.Write(codecs.writeUtf(personName.prefix));
    AppendAssoc(start, record, codecs.writeUtf(personName.prefix));
    record := record + codecs.writeUtf(personName.prefix);
    dos.Write(codecs.writeUtf(personName.familyName));
    AppendAssoc(start, record, codecs.writeUtf(personName.familyName));
    record := record + codecs.writeUtf(personName.familyName);
    dos.Write(codecs.writeUtf(personName.middleName));
    AppendAssoc(start, record, codecs.writeUtf(personName.middleName));
    record := record + codecs.writeUtf(personName.middleName);
    dos.Write(codecs.writeUtf(personName.givenName));
    AppendAssoc(start, record, codecs.writeUtf(personName.givenName));
    record := record + codecs.writeUtf(personName.givenName);
    dos.Write(codecs.writeUtf(patient.gender));
    AppendAssoc(start, record, codecs.writeUtf(patient.gender));
    record := record + codecs.writeUtf(patient.gender);
    dos.Write(codecs.writeDate(patient.birthdate));
    AppendAssoc(start, record, codecs.writeDate(patient.birthdate));
    record := record + codecs.writeDate(patient.birthdate);
    if patient.patientIdentifier.Some? {
      dos.Write(codecs.writeUtf(Some(patient.patientIdentifier.value)));
    } else {
      dos.WriteBoolean(false);
    }
    AppendAssoc(start, record, IdentifierBytes(codecs, patient));
    record := record + IdentifierBytes(codecs, patient);
    dos.WriteBoolean(false);
    AppendAssoc(start, record, [0]);
  }

  /** The loop over the patients in serialize(dos, data). */
  method SerializePatients(dos: DataOutputStream, codecs: Codecs, patients: seq<Patient>)
    modifies dos
    ensures dos.written == old(dos.written) + PatientRecords(codecs, patients)
  {
    for i := 0 to |patients|
      invariant dos.written == old(dos.written) + PatientRecords(codecs, patients[..i])
    {
      assert patients[..i + 1][..i] == patients[..i];
      AppendAssoc(old(dos.written), PatientRecords(codecs, patients[..i]), PatientRecord(codecs, patients[i]));
      SerializePatient(dos, codecs, patients[i]);
    }
    assert patients[..|patients|] == patients;
  }

  /** The loop over the fields in serialize(dos, data); false when a writeUTF failed. */
  method SerializeFields(dos: DataOutputStream, fields: seq<PatientTableField>) returns (complete: bool)
    modifies dos
    ensures dos.written == old(dos.written) + FieldsWritten(fields).bytes
    ensures complete == FieldsWritten(fields).complete
  {
    for i := 0 to |fields|
      invariant dos.written == old(dos.written) + FieldsWritten(fields[..i]).bytes
      invariant FieldsWritten(fields[..i]).complete
    {
      var field := fields[i];
      ghost var before := FieldsWritten(fields[..i]).bytes;
      assert fields[..i + 1][..i] == fields[..i];
      dos.WriteInt(field.id);
      AppendAssoc(old(dos.written), before, Int32BE(field.id));
      var ok := dos.WriteUtf(field.name);
      if !ok {
        FieldsStopped(fields, i + 1);
        return false;
      }
      AppendAssoc(old(dos.written) + before, Int32BE(field.id), EncodedUtf(field.name).value);
      AppendAssoc(old(dos.written), before, Int32BE(field.id) + EncodedUtf(field.name).value);
    }
    assert fields[..|fields|] == fields;
    return true;
  }

  /** The loop over the field values in serialize(dos, data); false when a writeUTF failed. */
  method SerializeValues(dos: DataOutputStream, values: seq<PatientTableFieldValue>) returns (complete: bool)
    modifies dos
    ensures dos.written == old(dos.written) + ValuesWritten(values).bytes
    ensures complete == ValuesWritten(values).complete
  {
    for i := 0 to |values|
      invariant dos.written == old(dos.written) + ValuesWritten(values[..i]).bytes
      invariant ValuesWritten(values[..i]).complete
    {
      var fieldVal := values[i];
      ghost var before := ValuesWritten(values[..i]).bytes;
      ghost var ids := Int32BE(fieldVal.fieldId) + Int32BE(fieldVal.patientId);
      assert values[..i + 1][..i] == values[..i];
      dos.WriteInt(fieldVal.fieldId);
      dos.WriteInt(fieldVal.patientId);
      AppendAssoc(old(dos.written) + before, Int32BE(fieldVal.fieldId), Int32BE(fieldVal.patientId));
      AppendAssoc(old(dos.written), before, ids);
      AppendAssoc(before, Int32BE(fieldVal.fieldId), Int32BE(fieldVal.patientId));
      var ok := dos.WriteUtf(fieldVal.value);
      if !ok {
        ValuesStopped(values, i + 1);
        return false;
      }
      AppendAssoc(old(dos.written) + before, ids, EncodedUtf(fieldVal.value).value);
      AppendAssoc(old(dos.written), before, ids + EncodedUtf(fieldVal.value).value);
    }
    assert values[..|values|] == values;
    return true;
  }

  /** serialize(dos, data): appends the whole batch, stopping where the source returns or throws. */
  method Serialize(dos: DataOutputStream, codecs: Codecs, data: Option<PatientData>)
    modifies dos
    ensures dos.written == old(dos.written) + Serialization(codecs, data)
  {
    if data.None? {
      return;
    }
    var patientData := data.value;
    var patients := patientData.patients;
    if patients.None? || |patients.value| == 0 {
      return;
    }
    var ps := patients.value;
    dos.WriteInt(Size(|ps|));
    SerializePatients(dos, codecs, ps);
    ghost var head := PatientSection(codecs, ps);
    AppendAssoc(old(dos.written), Int32BE(Size(|ps|)), PatientRecords(codecs, ps));

    var fields := patientData.fields;
    if fields.None? || |fields.value| == 0 {
      return;
    }
    var fs := fields.value;
    dos.WriteByte(Size(|fs|));
    var complete := SerializeFields(dos, fs);
    AppendAssoc(old(dos.written) + head, [Size(|fs|) % 0x100], FieldsWritten(fs).bytes);
    AppendAssoc(old(dos.written), head, FieldSection(fs));
    if !complete {
      return;
    }

    var fieldVals := patientData.fieldValues;
    if fieldVals.None? || |fieldVals.value| == 0 {
      return;
    }
    var vs := fieldVals.value;
    dos.WriteInt(Size(|vs|));
    complete := SerializeValues(dos, vs);
    AppendAssoc(old(dos.written) + head + FieldSection(fs), Int32BE(Size(|vs|)), ValuesWritten(vs).bytes);
    AppendAssoc(old(dos.written), head + FieldSection(fs), ValueSection(vs));
  }

  /** deSerialize: patients come back as forms, so nothing is read and the result is always null. */
  method DeSerialize(dis: seq<byte>, data: Option<PatientData>) returns (r: Option<PatientData>)
    ensures r.None?
  {
    r := None;
  }
}
