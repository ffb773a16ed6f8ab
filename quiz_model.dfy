/**
 * The quiz table of model.js: the record type, the field constraints that every write must meet,
 * an in-memory store standing for the SQLite table behind Sequelize, and the seed-when-empty step.
 */
module QuizModel {
  import opened Wrappers

  /** One row of the quiz table. */
  datatype Quiz = Quiz(id: int, question: string, answer: string)

  const QuestionEmptyMessage := "La pregunta no puede estar vacía"
  const AnswerEmptyMessage := "La respuesta no puede estar vacía"
  const DuplicateQuestionMessage := "Ya existe esta pregunta"

  // ---------------------------------------------------------------------------
  // Record constraints
  // ---------------------------------------------------------------------------

  /** Index of the record with this id, if any. */
  function IndexOf(rs: seq<Quiz>, id: int): (r: Option<nat>)
    ensures r.Some? ==> r.value < |rs| && rs[r.value].id == id
    ensures r.None? ==> forall k :: 0 <= k < |rs| ==> rs[k].id != id
  {
    if rs == [] then None
    else if rs[|rs| - 1].id == id then Some(|rs| - 1)
    else IndexOf(rs[..|rs| - 1], id)
  }

  /** Some record other than the one with id `self` already has this question. */
  predicate QuestionTaken(rs: seq<Quiz>, question: string, self: Option<int>)
  {
    exists k :: 0 <= k < |rs| && rs[k].question == question && Some(rs[k].id) != self
  }

  /**
   * The validation messages a write of (question, answer) gets: the non-empty checks of both
   * fields first, in field order; the uniqueness of the question only when both pass.
   */
  function Violations(rs: seq<Quiz>, question: string, answer: string, self: Option<int>): (v: seq<string>)
    ensures v == [] <==> question != "" && answer != "" && !QuestionTaken(rs, question, self)
    ensures QuestionEmptyMessage in v <==> question == ""
    ensures AnswerEmptyMessage in v <==> answer == ""
    ensures forall i, j :: 0 <= i < j < |v| ==> v[i] != v[j]
    ensures DuplicateQuestionMessage in v <==> question != "" && answer != "" && QuestionTaken(rs, question, self)
  {
    var empties := (if question == "" then [QuestionEmptyMessage] else [])
                 + (if answer == "" then [AnswerEmptyMessage] else []);
    if empties != [] then empties
    else if QuestionTaken(rs, question, self) then [DuplicateQuestionMessage]
    else []
  }

  /**
   * What the table holds at any time: ids positive, increasing in row order and below the next
   * id to assign; questions and answers non-empty; no question twice.
   */
  predicate ValidRecords(rs: seq<Quiz>, nextId: int)
  {
    && 1 <= nextId
    && (forall k :: 0 <= k < |rs| ==> 1 <= rs[k].id < nextId && rs[k].question != "" && rs[k].answer != "")
    && (forall j, k :: 0 <= j < k < |rs| ==> rs[j].id < rs[k].id && rs[j].question != rs[k].question)
  }

  /** The rows with the record of that id replaced by q, in place. */
  function ReplaceRecord(rs: seq<Quiz>, q: Quiz): (r: seq<Quiz>)
  {
    match IndexOf(rs, q.id)
    case None => rs
    case Some(k) => rs[k := q]
  }

  /** delete where id: the rows whose id differs, in their order. */
  function RemoveRecord(rs: seq<Quiz>, id: int): (r: seq<Quiz>)
    ensures forall q :: q in r <==> q in rs && q.id != id
    ensures |r| <= |rs|
    ensures (forall q :: q in rs ==> q.id != id) ==> r == rs
  {
    if rs == [] then []
    else RemoveRecord(rs[..|rs| - 1], id) + (if rs[|rs| - 1].id == id then [] else [rs[|rs| - 1]])
  }

  /** Ids identify records: two rows of a valid table with the same id are the same row. */
  lemma UniqueIds(rs: seq<Quiz>, nextId: int)
    requires ValidRecords(rs, nextId)
    ensures forall p, q :: p in rs && q in rs && p.id == q.id ==> p == q
  {
    forall p, q | p in rs && q in rs && p.id == q.id ensures p == q {
      var i :| 0 <= i < |rs| && rs[i] == p;
      var j :| 0 <= j < |rs| && rs[j] == q;
      assert !(i < j) && !(j < i);
    }
  }

  /** Overwriting an existing row: same number of rows, q in place of the row with its id, the rest kept. */
  lemma ReplaceRecordEffect(rs: seq<Quiz>, q: Quiz)
    requires exists p :: p in rs && p.id == q.id
    ensures |ReplaceRecord(rs, q)| == |rs|
    ensures q in ReplaceRecord(rs, q)
    ensures forall p :: p in rs && p.id != q.id ==> p in ReplaceRecord(rs, q)
    ensures forall p :: p in ReplaceRecord(rs, q) ==> p == q || p in rs
  {
    var i := IndexOf(rs, q.id).value;
    var r := rs[i := q];
    assert r[i] == q;
    forall p | p in rs && p.id != q.id ensures p in r {
      var j :| 0 <= j < |rs| && rs[j] == p;
      assert r[j] == p;
    }
  }

  /** Appending a record that passes validation, under a fresh id, keeps the table valid. */
  lemma AppendKeepsValid(rs: seq<Quiz>, nextId: int, question: string, answer: string)
    requires ValidRecords(rs, nextId)
    requires Violations(rs, question, answer, None) == []
    ensures ValidRecords(rs + [Quiz(nextId, question, answer)], nextId + 1)
  {
    var r := rs + [Quiz(nextId, question, answer)];
    forall j, k | 0 <= j < k < |r|
      ensures r[j].id < r[k].id && r[j].question != r[k].question
    {
      if k == |rs| {
        assert r[j] == rs[j] && rs[j].question != question;
      }
    }
  }

  /** Replacing a record by one that passes validation for its own id keeps the table valid. */
  lemma ReplaceKeepsValid(rs: seq<Quiz>, nextId: int, q: Quiz)
    requires ValidRecords(rs, nextId)
    requires Violations(rs, q.question, q.answer, Some(q.id)) == []
    ensures ValidRecords(ReplaceRecord(rs, q), nextId)
  {
    match IndexOf(rs, q.id)
    case None =>
    case Some(i) =>
      var r := rs[i := q];
      forall j, k | 0 <= j < k < |r|
        ensures r[j].id < r[k].id && r[j].question != r[k].question
      {
        if j == i {
          assert rs[k].question != q.question;
        } else if k == i {
          assert rs[j].question != q.question;
        }
      }
  }

  lemma ValidDropLast(rs: seq<Quiz>, nextId: int)
    requires rs != [] && ValidRecords(rs, nextId)
    ensures ValidRecords(rs[..|rs| - 1], nextId)
    ensures forall q :: q in rs[..|rs| - 1] ==> q.id < rs[|rs| - 1].id && q.question != rs[|rs| - 1].question
  {
    var init := rs[..|rs| - 1];
    forall q | q in init ensures q.id < rs[|rs| - 1].id && q.question != rs[|rs| - 1].question {
      var i :| 0 <= i < |init| && init[i] == q;
      assert rs[i] == q;
    }
  }

  lemma ValidAppend(rs: seq<Quiz>, nextId: int, x: Quiz)
    requires ValidRecords(rs, nextId)
    requires 1 <= x.id < nextId && x.question != "" && x.answer != ""
    requires forall q :: q in rs ==> q.id < x.id && q.question != x.question
    ensures ValidRecords(rs + [x], nextId)
  {
    var r := rs + [x];
    forall j, k | 0 <= j < k < |r| ensures r[j].id < r[k].id && r[j].question != r[k].question {
      if k == |rs| {
        assert r[j] in rs;
      }
    }
  }

  lemma {:induction false} RemoveKeepsValid(rs: seq<Quiz>, nextId: int, id: int)
    requires ValidRecords(rs, nextId)
    ensures ValidRecords(RemoveRecord(rs, id), nextId)
    decreases |rs|
  {
    if rs != [] {
      var init, last := rs[..|rs| - 1], rs[|rs| - 1];
      ValidDropLast(rs, nextId);
      RemoveKeepsValid(init, nextId, id);
      if last.id != id {
        ValidAppend(RemoveRecord(init, id), nextId, last);
      }
    }
  }

  // ---------------------------------------------------------------------------
  // Seeding
  // ---------------------------------------------------------------------------

  /** The four rows inserted into an empty table, numbered from the next id. */
  function SeedRecords(nextId: int): (r: seq<Quiz>)
  {
    [ Quiz(nextId, "Capital de Italia", "Roma"),
      Quiz(nextId + 1, "Capital de Francia", "París"),
      Quiz(nextId + 2, "Capital de España", "Madrid"),
      Quiz(nextId + 3, "Capital de Portugal", "Lisboa") ]
  }

  /** The seeding rule on the rows: the seed rows when there are none, the rows unchanged otherwise. */
  function Seeded(rs: seq<Quiz>, nextId: int): (r: seq<Quiz>)
    ensures rs != [] ==> r == rs
    ensures rs == [] ==> |r| == 4 && forall k :: 0 <= k < 4 ==> r[k].id == nextId + k
  {
    if rs == [] then SeedRecords(nextId) else rs
  }

  /** The seed rows meet the record constraints: non-empty fields and four distinct questions. */
  lemma SeedRecordsValid(nextId: int)
    requires 1 <= nextId
    ensures ValidRecords(SeedRecords(nextId), nextId + 4)
  {
    var r := SeedRecords(nextId);
    assert r[0].question[11] == 'I' && r[1].question[11] == 'F';
    assert r[2].question[11] == 'E' && r[3].question[11] == 'P';
  }

  /** Seeding a second time, whatever the next id by then, changes nothing. */
  lemma SeededIdempotent(rs: seq<Quiz>, nextId: int, laterNextId: int)
    ensures Seeded(Seeded(rs, nextId), laterNextId) == Seeded(rs, nextId)
  {
  }

  // ---------------------------------------------------------------------------
  // The store
  // ---------------------------------------------------------------------------

  /**
   * The quiz table: its rows in id order and the id the next insert gets (ids are never
   * reused, as with an AUTOINCREMENT primary key).
   */
  class QuizStore {
    var records: seq<Quiz>
    var nextId: int

    predicate Valid()
      reads this
    {
      ValidRecords(records, nextId)
    }

    constructor ()
      ensures Valid() && records == [] && nextId == 1
    {
      records := [];
      nextId := 1;
    }

    /** count() */
    function Count(): (n: nat)
      reads this
      ensures n == |records|
    {
      |records|
    }

    /** findById: the record with that id, if there is one. */
    function FindById(id: int): (r: Option<Quiz>)
      reads this
      ensures r.Some? ==> r.value in records && r.value.id == id
      ensures r.None? <==> forall q :: q in records ==> q.id != id
    {
      match IndexOf(records, id)
      case None => None
      case Some(k) => Some(records[k])
    }

    /** create: validate, then insert under a fresh id; on a validation error nothing is written. */
    method Create(question: string, answer: string) returns (r: Result<Quiz, seq<string>>)
      requires Valid()
      modifies this
      ensures Valid()
      ensures var v := Violations(old(records), question, answer, None);
        if v == [] then
          && r == Success(Quiz(old(nextId), question, answer))
          && records == old(records) + [r.value] && nextId == old(nextId) + 1
          && FindById(r.value.id) == Some(r.value)
        else
          r == Failure(v) && records == old(records) && nextId == old(nextId)
    {
      var v := Violations(records, question, answer, None);
      if v == [] {
        AppendKeepsValid(records, nextId, question, answer);
        var q := Quiz(nextId, question, answer);
        records := records + [q];
        nextId := nextId + 1;
        r := Success(q);
        assert records[|records| - 1] == q;
      } else {
        r := Failure(v);
      }
    }

    /** save of a fetched record: validate against the other rows, then overwrite the row with its id. */
    method Save(q: Quiz) returns (r: Result<Quiz, seq<string>>)
      requires Valid()
      modifies this
      ensures Valid() && nextId == old(nextId)
      ensures var v := Violations(old(records), q.question, q.answer, Some(q.id));
        if v == [] then r == Success(q) && records == ReplaceRecord(old(records), q)
        else r == Failure(v) && records == old(records)
    {
      var v := Violations(records, q.question, q.answer, Some(q.id));
      if v == [] {
        ReplaceKeepsValid(records, nextId, q);
        records := ReplaceRecord(records, q);
        r := Success(q);
      } else {
        r := Failure(v);
      }
    }

    /** destroy where id: removes the matching row if there is one; no error when there is none. */
    method Destroy(id: int)
      requires Valid()
      modifies this
      ensures Valid() && nextId == old(nextId)
      ensures records == RemoveRecord(old(records), id)
    {
      RemoveKeepsValid(records, nextId, id);
      records := RemoveRecord(records, id);
    }

    /** The start-up step: bulk-insert the four seed rows when count() is zero. */
    method EnsureSeeded()
      requires Valid()
      modifies this
      ensures Valid()
      ensures records == Seeded(old(records), old(nextId))
      ensures nextId == old(nextId) + (|records| - |old(records)|)
    {
      if Count() == 0 {
        SeedRecordsValid(nextId);
        records := SeedRecords(nextId);
        nextId := nextId + 4;
      }
    }
  }
}
