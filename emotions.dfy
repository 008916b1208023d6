/**
 * The survey loader `get_gallup_emotions_data`: the ten question labels of
 * `qInfo`, and per country name a record from label to its "yes" response
 * rate, absent when the response is the empty string.
 */
module Emotions {
  import opened Wrappers
  import opened Collections

  /** The question keys `f'q{i}'` for `i in range(1, 11)`, in that order. */
  const QuestionKeys: seq<string> := ["q1", "q2", "q3", "q4", "q5", "q6", "q7", "q8", "q9", "q10"]
  const LabelField := "label"
  const YesField := "yes"
  const NameField := "name"

  /** A country's response rates by question label. */
  type EmotionRecord = map<string, Option<real>>

  /** One element of the document's `data` list: its `name`, if it has one, and its objects per question key. */
  datatype SurveyEntry = SurveyEntry(name: Option<string>, questions: map<string, map<string, string>>)

  /** The survey document: `qInfo`, question key to its fields, and the `data` list. */
  datatype Survey = Survey(qInfo: map<string, map<string, string>>, data: seq<SurveyEntry>)

  /** The dict `emotions_data`: its records, and its keys in the dict's iteration order. */
  datatype EmotionsTable = EmotionsTable(names: seq<string>, records: map<string, EmotionRecord>) {
    /** The key order lists every key exactly once. */
    ghost predicate Valid() {
      (forall n :: n in names <==> n in records) &&
      forall p, q :: 0 <= p < q < |names| ==> names[p] != names[q]
    }
  }

  /** `data['qInfo'][key]['label']`, paired with its key. */
  function QuestionLabel(qInfo: map<string, map<string, string>>, key: string): Result<(string, string), Error> {
    if key !in qInfo then Failure(KeyNotFound(key))
    else if LabelField !in qInfo[key] then Failure(KeyNotFound(LabelField))
    else Success((key, qInfo[key][LabelField]))
  }

  function LabelStep(qInfo: map<string, map<string, string>>): string -> Result<(string, string), Error> {
    key => QuestionLabel(qInfo, key)
  }

  /** `label_map`: the (question key, label) items, in key order. */
  function LabelMap(qInfo: map<string, map<string, string>>): Result<seq<(string, string)>, Error> {
    Traverse(QuestionKeys, LabelStep(qInfo))
  }

  /** `float(value) if value != '' else None`. */
  function CellValue(yes: string, parse: string -> real): (r: Option<real>)
    ensures r.None? <==> yes == ""
    ensures r.Some? ==> r.value == parse(yes)
  {
    if yes != "" then Some(parse(yes)) else None
  }

  /** One inner-loop iteration: `record[label] = CellValue(country[key]['yes'])`. */
  function Answer(questions: map<string, map<string, string>>, parse: string -> real, item: (string, string))
    : Result<Option<(string, Option<real>)>, Error>
  {
    var key := item.0;
    if key !in questions then Failure(KeyNotFound(key))
    else if YesField !in questions[key] then Failure(KeyNotFound(YesField))
    else Success(Some((item.1, CellValue(questions[key][YesField], parse))))
  }

  function AnswerStep(questions: map<string, map<string, string>>, parse: string -> real)
    : ((string, string)) -> Result<Option<(string, Option<real>)>, Error>
  {
    item => Answer(questions, parse, item)
  }

  /** The record the inner loop builds for one country from the label items. */
  function RecordOf(labels: seq<(string, string)>, questions: map<string, map<string, string>>, parse: string -> real)
    : Result<EmotionRecord, Error>
  {
    var entries :- Traverse(labels, AnswerStep(questions, parse));
    Success(Upsert(entries))
  }

  /** One outer-loop iteration: the country's name and its record. */
  function EntryRecord(labels: seq<(string, string)>, parse: string -> real, entry: SurveyEntry)
    : (r: Result<Option<(string, EmotionRecord)>, Error>)
    ensures r.Success? <==> entry.name.Some? && RecordOf(labels, entry.questions, parse).Success?
    ensures r.Success? ==> r.value == Some((entry.name.value, RecordOf(labels, entry.questions, parse).value))
  {
    if entry.name.None? then Failure(KeyNotFound(NameField))
    else
      var record :- RecordOf(labels, entry.questions, parse);
      Success(Some((entry.name.value, record)))
  }

  function EntryStep(labels: seq<(string, string)>, parse: string -> real)
    : SurveyEntry -> Result<Option<(string, EmotionRecord)>, Error>
  {
    entry => EntryRecord(labels, parse, entry)
  }

  /** The table the outer loop builds from the entries of `data`. */
  function TableOf(labels: seq<(string, string)>, data: seq<SurveyEntry>, parse: string -> real)
    : Result<EmotionsTable, Error>
  {
    var entries :- Traverse(data, EntryStep(labels, parse));
    Success(EmotionsTable(InsertionOrder(entries), Upsert(entries)))
  }

  /** The table `get_gallup_emotions_data` returns for a document. */
  function EmotionsData(survey: Survey, parse: string -> real): Result<EmotionsTable, Error> {
    var labels :- LabelMap(survey.qInfo);
    TableOf(labels, survey.data, parse)
  }

  /** The inner loop: fills one country's record label by label. */
  method BuildRecord(labels: seq<(string, string)>, questions: map<string, map<string, string>>, parse: string -> real)
    returns (r: Result<EmotionRecord, Error>)
    ensures r == RecordOf(labels, questions, parse)
  {
    var record: EmotionRecord := map[];
    ghost var entries: seq<Option<(string, Option<real>)>> := [];
    for i := 0 to |labels|
      invariant Traverse(labels[..i], AnswerStep(questions, parse)) == Success(entries)
      invariant record == Upsert(entries)
    {
      var key, labelText := labels[i].0, labels[i].1;
      assert labels[..i + 1][..i] == labels[..i];
      if key !in questions || YesField !in questions[key] {
        TraverseStops(labels, i + 1, AnswerStep(questions, parse));
        return Failure(KeyNotFound(if key !in questions then key else YesField));
      }
      var value := questions[key][YesField];
      record := record[labelText := CellValue(value, parse)];
      assert (entries + [Some((labelText, CellValue(value, parse)))])[..|entries|] == entries;
      entries := entries + [Some((labelText, CellValue(value, parse)))];
    }
    assert labels[..|labels|] == labels;
    return Success(record);
  }

  /** `get_gallup_emotions_data` over an already-parsed document. */
  method GetGallupEmotionsData(survey: Survey, parse: string -> real) returns (r: Result<EmotionsTable, Error>)
    ensures r == EmotionsData(survey, parse)
    ensures r.Success? ==> r.value.Valid()
  {
    var labelMap := LabelMap(survey.qInfo);
    if labelMap.Failure? {
      return Failure(labelMap.error);
    }
    r := FillTable(labelMap.value, survey.data, parse);
  }

  /** The outer loop: one record per entry, stored under the entry's name. */
  method FillTable(labels: seq<(string, string)>, data: seq<SurveyEntry>, parse: string -> real)
    returns (r: Result<EmotionsTable, Error>)
    ensures r == TableOf(labels, data, parse)
    ensures r.Success? ==> r.value.Valid()
  {
    var names: seq<string> := [];
    var records: map<string, EmotionRecord> := map[];
    ghost var entries: seq<Option<(string, EmotionRecord)>> := [];
    for i := 0 to |data|
      invariant Traverse(data[..i], EntryStep(labels, parse)) == Success(entries)
      invariant names == InsertionOrder(entries)
      invariant records == Upsert(entries)
    {
      var country := data[i];
      assert data[..i + 1][..i] == data[..i];
      if country.name.None? {
        TraverseStops(data, i + 1, EntryStep(labels, parse));
        return Failure(KeyNotFound(NameField));
      }
      var name := country.name.value;
      ghost var before := records;
      if name !in records {
        names := names + [name];
      }
      records := records[name := map[]];
      var record := BuildRecord(labels, country.questions, parse);
      if record.Failure? {
        TraverseStops(data, i + 1, EntryStep(labels, parse));
        return Failure(record.error);
      }
      records := records[name := record.value];
      assert records == before[name := record.value];
      assert EntryStep(labels, parse)(country) == Success(Some((name, record.value)));
      DictAssign(entries, name, record.value);
      entries := entries + [Some((name, record.value))];
    }
    assert data[..|data|] == data;
    return Success(EmotionsTable(names, records));
  }

  /** The label map exists when every question has a label, and then lists q1..q10 with their labels. */
  lemma LabelMapShape(qInfo: map<string, map<string, string>>)
    ensures LabelMap(qInfo).Success? <==>
              forall i :: 0 <= i < |QuestionKeys| ==> QuestionKeys[i] in qInfo && LabelField in qInfo[QuestionKeys[i]]
    ensures LabelMap(qInfo).Success? ==>
              |LabelMap(qInfo).value| == 10 &&
              forall i :: 0 <= i < 10 ==>
                LabelMap(qInfo).value[i] == (QuestionKeys[i], qInfo[QuestionKeys[i]][LabelField])
  {
    TraverseElements(QuestionKeys, LabelStep(qInfo));
  }

  /** A record succeeds exactly when the entry answers every question with a "yes" field. */
  lemma RecordSucceedsIff(labels: seq<(string, string)>, questions: map<string, map<string, string>>, parse: string -> real)
    ensures RecordOf(labels, questions, parse).Success? <==>
              forall i :: 0 <= i < |labels| ==> labels[i].0 in questions && YesField in questions[labels[i].0]
  {
    TraverseElements(labels, AnswerStep(questions, parse));
  }

  /** The record's keys are exactly the labels of the label items. */
  ghost predicate HasLabels(record: EmotionRecord, labels: seq<(string, string)>) {
    forall text :: text in record <==> exists i :: 0 <= i < |labels| && labels[i].1 == text
  }

  /** A record has exactly the labels of the label map. */
  lemma RecordLabels(labels: seq<(string, string)>, questions: map<string, map<string, string>>, parse: string -> real,
                     record: EmotionRecord)
    requires RecordOf(labels, questions, parse) == Success(record)
    ensures HasLabels(record, labels)
  {
    var step := AnswerStep(questions, parse);
    TraverseElements(labels, step);
    var entries := Traverse(labels, step).value;
    UpsertKeys(entries);
    assert forall i :: 0 <= i < |labels| ==> step(labels[i]) == Success(entries[i]);
  }

  /** Under a label, a record holds the converted response of the last question with that label. */
  lemma RecordValue(labels: seq<(string, string)>, questions: map<string, map<string, string>>, parse: string -> real,
                    record: EmotionRecord, i: nat)
    requires RecordOf(labels, questions, parse) == Success(record)
    requires i < |labels|
    requires forall j :: i < j < |labels| ==> labels[j].1 != labels[i].1
    ensures labels[i].0 in questions && YesField in questions[labels[i].0]
    ensures labels[i].1 in record && record[labels[i].1] == CellValue(questions[labels[i].0][YesField], parse)
  {
    var step := AnswerStep(questions, parse);
    TraverseElements(labels, step);
    var entries := Traverse(labels, step).value;
    assert forall j :: 0 <= j < |labels| ==> step(labels[j]) == Success(entries[j]);
    UpsertLastWins(entries, i);
  }

  /** Loading fails exactly for a missing label, a nameless entry, or a missing response. */
  lemma EmotionsDataSucceedsIff(survey: Survey, parse: string -> real)
    ensures EmotionsData(survey, parse).Success? <==>
              LabelMap(survey.qInfo).Success? &&
              forall j :: 0 <= j < |survey.data| ==>
                survey.data[j].name.Some? &&
                RecordOf(LabelMap(survey.qInfo).value, survey.data[j].questions, parse).Success?
  {
    if LabelMap(survey.qInfo).Success? {
      TraverseElements(survey.data, EntryStep(LabelMap(survey.qInfo).value, parse));
    }
  }

  /** Every country in the table has exactly the labels of `qInfo`, the ten of LabelMapShape. */
  lemma TableRecordsHaveAllLabels(survey: Survey, parse: string -> real, table: EmotionsTable)
    requires EmotionsData(survey, parse) == Success(table)
    ensures LabelMap(survey.qInfo).Success?
    ensures forall name :: name in table.records ==> HasLabels(table.records[name], LabelMap(survey.qInfo).value)
  {
    var labels := LabelMap(survey.qInfo).value;
    var step := EntryStep(labels, parse);
    var entries := Traverse(survey.data, step).value;
    forall name | name in table.records
      ensures HasLabels(table.records[name], labels)
    {
      UpsertKeys(entries);
      var j :| 0 <= j < |entries| && entries[j].Some? && entries[j].value.0 == name;
      var k := LastAssignment(entries, j);
      UpsertLastWins(entries, k);
      EntryAt(survey, parse, k);
      RecordLabels(labels, survey.data[k].questions, parse, table.records[name]);
    }
  }

  /** What the loading loop collected for one entry of a successful load. */
  lemma EntryAt(survey: Survey, parse: string -> real, j: nat)
    requires EmotionsData(survey, parse).Success?
    requires j < |survey.data|
    ensures LabelMap(survey.qInfo).Success?
    ensures var entries := Traverse(survey.data, EntryStep(LabelMap(survey.qInfo).value, parse)).value;
            j < |entries| && survey.data[j].name.Some? &&
            RecordOf(LabelMap(survey.qInfo).value, survey.data[j].questions, parse).Success? &&
            entries[j] == Some((survey.data[j].name.value,
                                RecordOf(LabelMap(survey.qInfo).value, survey.data[j].questions, parse).value))
  {
    var step := EntryStep(LabelMap(survey.qInfo).value, parse);
    TraverseElements(survey.data, step);
    assert step(survey.data[j]) == Success(Traverse(survey.data, step).value[j]);
  }

  /** The last position at or after `j` that assigns the same key as `j`. */
  ghost function LastAssignment<K, V>(es: seq<Option<(K, V)>>, j: nat): (k: nat)
    requires j < |es| && es[j].Some?
    ensures j <= k < |es| && es[k].Some? && es[k].value.0 == es[j].value.0
    ensures forall m :: k < m < |es| && es[m].Some? ==> es[m].value.0 != es[j].value.0
    decreases |es| - j
  {
    if exists m :: j < m < |es| && es[m].Some? && es[m].value.0 == es[j].value.0 then
      var m :| j < m < |es| && es[m].Some? && es[m].value.0 == es[j].value.0;
      LastAssignment(es, m)
    else j
  }

  /** What the loading loop collected, entry by entry. */
  lemma EntriesOfLoad(survey: Survey, parse: string -> real)
    requires EmotionsData(survey, parse).Success?
    ensures LabelMap(survey.qInfo).Success?
    ensures var entries := Traverse(survey.data, EntryStep(LabelMap(survey.qInfo).value, parse)).value;
            |entries| == |survey.data| &&
            forall j :: 0 <= j < |survey.data| ==>
              survey.data[j].name.Some? && entries[j].Some? && entries[j].value.0 == survey.data[j].name.value
  {
    forall j | 0 <= j < |survey.data| {
      EntryAt(survey, parse, j);
    }
  }

  /** The table's names are the names of the entries, each listed once. */
  lemma TableNames(survey: Survey, parse: string -> real, table: EmotionsTable)
    requires EmotionsData(survey, parse) == Success(table)
    ensures table.Valid()
    ensures forall name :: name in table.names <==>
              exists j :: 0 <= j < |survey.data| && survey.data[j].name == Some(name)
  {
    var entries := Traverse(survey.data, EntryStep(LabelMap(survey.qInfo).value, parse)).value;
    EntriesOfLoad(survey, parse);
    UpsertKeys(entries);
  }

  /** A name that occurs twice keeps the record of its last entry. */
  lemma TableLastWins(survey: Survey, parse: string -> real, table: EmotionsTable, j: nat)
    requires EmotionsData(survey, parse) == Success(table)
    requires j < |survey.data|
    requires forall j' :: j < j' < |survey.data| ==> survey.data[j'].name != survey.data[j].name
    ensures survey.data[j].name.Some? && survey.data[j].name.value in table.records
    ensures Success(table.records[survey.data[j].name.value]) ==
              RecordOf(LabelMap(survey.qInfo).value, survey.data[j].questions, parse)
  {
    var entries := Traverse(survey.data, EntryStep(LabelMap(survey.qInfo).value, parse)).value;
    EntriesOfLoad(survey, parse);
    EntryAt(survey, parse, j);
    UpsertLastWins(entries, j);
  }

  /** With distinct names, the table iterates in the document's order. */
  lemma TableOrderFollowsDocument(survey: Survey, parse: string -> real, table: EmotionsTable)
    requires EmotionsData(survey, parse) == Success(table)
    requires forall j, j' :: 0 <= j < j' < |survey.data| ==> survey.data[j].name != survey.data[j'].name
    ensures |table.names| == |survey.data|
    ensures forall j :: 0 <= j < |survey.data| ==> Some(table.names[j]) == survey.data[j].name
  {
    var entries := Traverse(survey.data, EntryStep(LabelMap(survey.qInfo).value, parse)).value;
    EntriesOfLoad(survey, parse);
    InsertionOrderOfDistinct(entries);
  }

  /** With repeated names, a name comes earlier in the table than another when its first entry comes before the other's. */
  lemma TableOrderByFirstEntry(survey: Survey, parse: string -> real, table: EmotionsTable)
    requires EmotionsData(survey, parse) == Success(table)
    ensures forall p, q :: 0 <= p < q < |table.names| ==>
              exists j :: 0 <= j < |survey.data| && survey.data[j].name == Some(table.names[p]) &&
                          forall j' :: 0 <= j' <= j ==> survey.data[j'].name != Some(table.names[q])
  {
    var entries := Traverse(survey.data, EntryStep(LabelMap(survey.qInfo).value, parse)).value;
    EntriesOfLoad(survey, parse);
    assert table.names == InsertionOrder(entries);
    InsertionOrderFollowsFirstAssignment(entries);
    forall p, q | 0 <= p < q < |table.names|
      ensures exists j :: 0 <= j < |survey.data| && survey.data[j].name == Some(table.names[p]) &&
                          forall j' :: 0 <= j' <= j ==> survey.data[j'].name != Some(table.names[q])
    {
      assert 0 <= p < q < |InsertionOrder(entries)|;
      assert AssignedBefore(entries, InsertionOrder(entries)[p], InsertionOrder(entries)[q]);
      var j :| 0 <= j < |entries| && Assigns(entries[j], table.names[p]) &&
               forall j' :: 0 <= j' <= j ==> !Assigns(entries[j'], table.names[q]);
      assert survey.data[j].name == Some(table.names[p]);
    }
  }
}
