/**
 * EtlControlService over the etl_jobs table. The table is a map from job_id
 * to job, held by a class whose methods change it in place as the
 * repository's save does. The clock, the random draw and the id the
 * database generates are parameters.
 */
module EtlControl {
  import opened Wrappers

  /** The statuses of the etl_jobs table. */
  datatype JobStatus = Pendiente | EnCurso | Completado | Fallido

  function StatusLabel(s: JobStatus): string
  {
    match s
    case Pendiente => "PENDIENTE"
    case EnCurso => "EN_CURSO"
    case Completado => "COMPLETADO"
    case Fallido => "FALLIDO"
  }

  const DailyIngest := "INGESTA_DIARIA"
  const SimulatedWorker := "simulador-local"
  const MinRows := 50000
  const MaxRows := 150000

  /** A row of etl_jobs; instants are numbers, nullable columns Options. */
  datatype EtlJob = EtlJob(
    jobId: string, jobType: string, status: JobStatus, dataDate: string,
    requestedAt: int, startedAt: Option<int>, finishedAt: Option<int>,
    workerId: Option<string>, rowsProcessed: Option<int>, errorMessage: Option<string>)

  /** The job startEtlJob creates: a daily ingest of date, running since now. */
  function NewJob(id: string, date: string, now: int): (j: EtlJob)
    ensures j.status == EnCurso && j.jobType == DailyIngest && j.dataDate == date
    ensures j.requestedAt == now && j.startedAt == Some(now) && j.jobId == id
    ensures j.finishedAt == None && j.workerId == None && j.rowsProcessed == None && j.errorMessage == None
  {
    EtlJob(id, DailyIngest, EnCurso, date, now, Some(now), None, None, None, None)
  }

  function NotFoundMessage(id: string): string
  {
    "Job con ID \"" + id + "\" no encontrado."
  }

  /** Why getJobStatus fails: the NotFoundException of the service, or the
      database refusing an id that is not a uuid before any row is read. */
  datatype StatusError = NotFound(message: string) | InvalidUuidSyntax(id: string)

  // ---------------------------------------------------------------------
  // job_id is a uuid column: PostgreSQL parses the id the query is sent.

  /** Sixteen bytes. */
  ghost predicate IsUuidBytes(bs: seq<int>)
  {
    |bs| == 16 && forall i :: 0 <= i < 16 ==> 0 <= bs[i] < 256
  }

  /** The value of a hexadecimal digit of either case. */
  function HexValue(c: char): (r: Option<int>)
    ensures r.Some? ==> 0 <= r.value < 16
  {
    if '0' <= c <= '9' then Some(c as int - '0' as int)
    else if 'a' <= c <= 'f' then Some(c as int - 'a' as int + 10)
    else if 'A' <= c <= 'F' then Some(c as int - 'A' as int + 10)
    else None
  }

  /** The bytes read so far and the text that follows them. */
  datatype Parsed = Parsed(bytes: seq<int>, after: string)

  /** The byte two hexadecimal digits denote. */
  function ByteOf(hi: char, lo: char): (b: int)
    requires HexValue(hi).Some? && HexValue(lo).Some?
    ensures 0 <= b < 256
  {
    HexValue(hi).value * 16 + HexValue(lo).value
  }

  /** The text after the two digits of byte i: a '-' there is skipped after
      every second byte except the last. */
  function AfterByte(t: string, i: nat): string
    requires |t| >= 2
  {
    if |t| > 2 && t[2] == '-' && i % 2 == 1 && i < 15 then t[3..] else t[2..]
  }

  /** Bytes i to 15 of a uuid in PostgreSQL's input syntax: two hexadecimal
      digits per byte, and one '-' allowed after every second byte except the
      last. Gives the bytes and what follows them. */
  function ParseUuidBytes(t: string, i: nat): (r: Option<Parsed>)
    requires i <= 16
    ensures r.Some? ==> |r.value.bytes| == 16 - i
    decreases 16 - i
  {
    if i == 16 then Some(Parsed([], t))
    else if |t| < 2 || HexValue(t[0]).None? || HexValue(t[1]).None? then None
    else
      var next := ParseUuidBytes(AfterByte(t, i), i + 1);
      if next.None? then None
      else Some(Parsed([ByteOf(t[0], t[1])] + next.value.bytes, next.value.after))
  }

  /** PostgreSQL's uuid input: an optional '{', the sixteen bytes, the matching
      '}', and nothing else. None is the "invalid input syntax for type uuid"
      error. */
  function ParseUuid(s: string): (r: Option<seq<int>>)
    ensures r.Some? ==> IsUuidBytes(r.value)
  {
    var braces := s != [] && s[0] == '{';
    var body := if braces then s[1..] else s;
    var parsed := ParseUuidBytes(body, 0);
    if parsed.None? then None
    else if (braces && parsed.value.after == "}") || (!braces && parsed.value.after == []) then
      ParsedBytes(body, 0);
      Some(parsed.value.bytes)
    else None
  }

  lemma {:induction false} ParsedBytes(t: string, i: nat)
    requires i <= 16 && ParseUuidBytes(t, i).Some?
    ensures forall j :: 0 <= j < 16 - i ==> 0 <= ParseUuidBytes(t, i).value.bytes[j] < 256
    decreases 16 - i
  {
    if i < 16 {
      ParsedBytes(AfterByte(t, i), i + 1);
    }
  }

  function HexDigit(n: int): (c: char)
    requires 0 <= n < 16
    ensures HexValue(c) == Some(n)
  {
    if n < 10 then ('0' as int + n) as char else ('a' as int + n - 10) as char
  }

  /** The bytes after which the canonical text has a '-': 8-4-4-4-12 digits. */
  predicate HyphenAfter(i: int)
  {
    i == 3 || i == 5 || i == 7 || i == 9
  }

  /** Bytes i to 15 in the canonical text. */
  function UuidTextFrom(bs: seq<int>, i: nat): (t: string)
    requires IsUuidBytes(bs) && i <= 16
    ensures i < 16 ==> |t| >= 2 && HexValue(t[0]).Some?
    decreases 16 - i
  {
    if i == 16 then []
    else [HexDigit(bs[i] / 16), HexDigit(bs[i] % 16)] + (if HyphenAfter(i) then "-" else "") + UuidTextFrom(bs, i + 1)
  }

  /** The canonical text of a uuid, the form PostgreSQL and gen_random_uuid()
      give: lower-case digits in groups of 8, 4, 4, 4 and 12. */
  function UuidText(bs: seq<int>): string
    requires IsUuidBytes(bs)
  {
    UuidTextFrom(bs, 0)
  }

  /** The canonical text of bytes i to 15 is read back, whatever follows it. */
  lemma {:induction false} UuidTextFromParses(bs: seq<int>, i: nat, suffix: string)
    requires IsUuidBytes(bs) && i <= 16
    ensures ParseUuidBytes(UuidTextFrom(bs, i) + suffix, i) == Some(Parsed(bs[i..], suffix))
    decreases 16 - i
  {
    if i < 16 {
      var tail := UuidTextFrom(bs, i + 1) + suffix;
      UuidTextFromParses(bs, i + 1, suffix);
      ParseStep(bs, i, suffix);
      assert [bs[i]] + bs[i + 1..] == bs[i..];
    } else {
      assert UuidTextFrom(bs, i) + suffix == suffix;
      assert bs[i..] == [];
    }
  }

  /** One byte of the canonical text, and its '-', are read back. */
  lemma ParseStep(bs: seq<int>, i: nat, suffix: string)
    requires IsUuidBytes(bs) && i < 16
    ensures ParseUuidBytes(UuidTextFrom(bs, i) + suffix, i) ==
      var next := ParseUuidBytes(UuidTextFrom(bs, i + 1) + suffix, i + 1);
      if next.None? then None else Some(Parsed([bs[i]] + next.value.bytes, next.value.after))
  {
    var hi, lo, tail := TextStep(bs, i, suffix);
    ParseOne(hi, lo, i, tail);
  }

  /** The canonical text of byte i followed by the rest. */
  lemma TextStep(bs: seq<int>, i: nat, suffix: string) returns (hi: char, lo: char, tail: string)
    requires IsUuidBytes(bs) && i < 16
    ensures HexValue(hi).Some? && HexValue(lo).Some? && ByteOf(hi, lo) == bs[i]
    ensures tail == UuidTextFrom(bs, i + 1) + suffix
    ensures i < 15 ==> tail != [] && tail[0] != '-'
    ensures UuidTextFrom(bs, i) + suffix == [hi, lo] + (if HyphenAfter(i) then "-" else "") + tail
  {
    hi, lo := HexDigit(bs[i] / 16), HexDigit(bs[i] % 16);
    var next := UuidTextFrom(bs, i + 1);
    tail := next + suffix;
    if i + 1 < 16 {
      assert HexValue(next[0]).Some?;
      assert tail[0] == next[0];
    }
  }

  /** Two hexadecimal digits, the '-' of byte i if it has one, and a rest
      that does not start with '-' where a '-' would be allowed. */
  lemma ParseOne(hi: char, lo: char, i: nat, tail: string)
    requires i < 16 && HexValue(hi).Some? && HexValue(lo).Some?
    requires i < 15 ==> tail != [] && tail[0] != '-'
    ensures var t := [hi, lo] + (if HyphenAfter(i) then "-" else "") + tail;
      ParseUuidBytes(t, i) ==
        var next := ParseUuidBytes(tail, i + 1);
        if next.None? then None else Some(Parsed([ByteOf(hi, lo)] + next.value.bytes, next.value.after))
  {
    var t := [hi, lo] + (if HyphenAfter(i) then "-" else "") + tail;
    if HyphenAfter(i) {
      assert t[3..] == tail;
    } else {
      assert t[2..] == tail;
    }
    assert AfterByte(t, i) == tail;
  }

  /** Reading the canonical text of a uuid gives back its bytes: the id a job
      is stored under is one PostgreSQL accepts and finds it by. */
  lemma UuidRoundTrip(bs: seq<int>)
    requires IsUuidBytes(bs)
    ensures ParseUuid(UuidText(bs)) == Some(bs)
  {
    var t := UuidText(bs);
    TextParses(bs, []);
    TextStart(bs, 0);
    assert t + [] == t;
    ParsePlain(t, bs);
  }

  /** The braced form of the canonical text is read as the same uuid. */
  lemma BracedUuid(bs: seq<int>)
    requires IsUuidBytes(bs)
    ensures ParseUuid("{" + UuidText(bs) + "}") == Some(bs)
  {
    var t := UuidText(bs);
    TextParses(bs, "}");
    ParseBraced("{" + t + "}", t, bs);
  }

  /** The canonical text, whatever follows it, is read as its bytes. */
  lemma TextParses(bs: seq<int>, suffix: string)
    requires IsUuidBytes(bs)
    ensures ParseUuidBytes(UuidText(bs) + suffix, 0) == Some(Parsed(bs, suffix))
  {
    UuidTextFromParses(bs, 0, suffix);
    assert bs[0..] == bs;
  }

  /** The canonical text starts with a hexadecimal digit, not '{'. */
  lemma TextStart(bs: seq<int>, i: nat)
    requires IsUuidBytes(bs) && i < 16
    ensures UuidTextFrom(bs, i) != [] && UuidTextFrom(bs, i)[0] != '{'
  {
    var c := UuidTextFrom(bs, i)[0];
    assert HexValue(c).Some?;
  }

  lemma ParsePlain(t: string, bs: seq<int>)
    requires t != [] && t[0] != '{'
    requires ParseUuidBytes(t, 0) == Some(Parsed(bs, []))
    ensures ParseUuid(t) == Some(bs)
  {
  }

  lemma ParseBraced(s: string, t: string, bs: seq<int>)
    requires s == "{" + t + "}"
    requires ParseUuidBytes(t + "}", 0) == Some(Parsed(bs, "}"))
    ensures ParseUuid(s) == Some(bs)
  {
    assert s[1..] == t + "}";
  }

  /** An id that is not a uuid, such as "abc", is refused. */
  lemma ShortIdIsInvalid(id: string)
    requires id == "abc"
    ensures ParseUuid(id) == None
  {
  }

  /** The ids of the running jobs. */
  function Running(jobs: map<string, EtlJob>): set<string>
  {
    set id | id in jobs && jobs[id].status == EnCurso
  }

  /** started_at ascending with NULLs last, PostgreSQL's default order. */
  predicate NotLater(a: Option<int>, b: Option<int>)
  {
    b == None || (a.Some? && a.value <= b.value)
  }

  /** id is a running job that no running job started before. */
  predicate IsOldestRunning(jobs: map<string, EtlJob>, id: string)
  {
    && id in Running(jobs)
    && forall other :: other in Running(jobs) ==> NotLater(jobs[id].startedAt, jobs[other].startedAt)
  }

  /** rows_processed of the simulation: Math.floor(random * 100001) + 50000. */
  function SimulatedRows(random: real): (rows: int)
    requires 0.0 <= random < 1.0
    ensures MinRows <= rows <= MaxRows
  {
    var scaled := random * (MaxRows - MinRows + 1) as real;
    assert 0.0 <= scaled < 100001.0;
    scaled.Floor + MinRows
  }

  /** The job marked done by the simulated worker. */
  function Completed(job: EtlJob, now: int, rows: int): (j: EtlJob)
    ensures j.status == Completado && j.finishedAt == Some(now) && j.rowsProcessed == Some(rows)
    ensures j.workerId == Some(SimulatedWorker)
    ensures j.(status := job.status, finishedAt := job.finishedAt, rowsProcessed := job.rowsProcessed, workerId := job.workerId) == job
  {
    job.(status := Completado, finishedAt := Some(now), rowsProcessed := Some(rows), workerId := Some(SimulatedWorker))
  }

  /** Among finitely many running jobs, one is the oldest. */
  lemma {:induction false} OldestIn(jobs: map<string, EtlJob>, ids: set<string>) returns (id: string)
    requires ids != {} && ids <= Running(jobs)
    ensures id in ids
    ensures forall other :: other in ids ==> NotLater(jobs[id].startedAt, jobs[other].startedAt)
  {
    var x :| x in ids;
    if ids == {x} {
      id := x;
    } else {
      var rest := OldestIn(jobs, ids - {x});
      if NotLater(jobs[rest].startedAt, jobs[x].startedAt) {
        id := rest;
      } else {
        id := x;
      }
    }
  }

  /** There is an oldest running job exactly when some job is running. */
  lemma OldestExists(jobs: map<string, EtlJob>)
    ensures Running(jobs) != {} <==> exists id :: IsOldestRunning(jobs, id)
  {
    if Running(jobs) != {} {
      var id := OldestIn(jobs, Running(jobs));
      assert IsOldestRunning(jobs, id);
    }
  }

  /** A new job adds one running job and leaves the others as they were. */
  lemma StartAddsOneRunning(jobs: map<string, EtlJob>, id: string, date: string, now: int)
    requires id !in jobs
    ensures Running(jobs[id := NewJob(id, date, now)]) == Running(jobs) + {id}
    ensures |Running(jobs[id := NewJob(id, date, now)])| == |Running(jobs)| + 1
  {
    assert id !in Running(jobs);
  }

  /** Completing a running job leaves one running job fewer. */
  lemma CompleteRemovesOneRunning(jobs: map<string, EtlJob>, id: string, now: int, rows: int)
    requires id in Running(jobs)
    ensures Running(jobs[id := Completed(jobs[id], now, rows)]) == Running(jobs) - {id}
    ensures |Running(jobs[id := Completed(jobs[id], now, rows)])| == |Running(jobs)| - 1
  {
  }

  /** Statuses only move from EN_CURSO to COMPLETADO: completing a running
      job creates neither a PENDIENTE nor a FALLIDO job. */
  lemma CompleteStatuses(jobs: map<string, EtlJob>, id: string, now: int, rows: int)
    requires id in Running(jobs)
    ensures var after := jobs[id := Completed(jobs[id], now, rows)];
      forall k :: k in after ==>
        after[k].status == jobs[k].status || (jobs[k].status == EnCurso && after[k].status == Completado)
  {
  }

  /** The etl_jobs table. */
  class JobTable {
    var jobs: map<string, EtlJob>

    constructor()
      ensures jobs == map[]
    {
      jobs := map[];
    }

    /** startEtlJob: inserts a running daily ingest of date under the fresh
        uuid the database generates; lang is not stored. */
    method StartEtlJob(uuid: seq<int>, date: string, lang: string, now: int) returns (job: EtlJob)
      requires IsUuidBytes(uuid) && UuidText(uuid) !in jobs
      modifies this
      ensures job == NewJob(UuidText(uuid), date, now)
      ensures jobs == old(jobs)[UuidText(uuid) := job]
    {
      job := NewJob(UuidText(uuid), date, now);
      jobs := jobs[UuidText(uuid) := job];
    }

    /** getJobStatus: an id PostgreSQL cannot read as a uuid fails in the
        query; otherwise the job with that uuid, or NotFound. */
    method GetJobStatus(id: string) returns (r: Result<EtlJob, StatusError>)
      ensures ParseUuid(id) == None ==> r == Err(InvalidUuidSyntax(id))
      ensures ParseUuid(id).Some? && UuidText(ParseUuid(id).value) in jobs ==>
        r == Ok(jobs[UuidText(ParseUuid(id).value)])
      ensures ParseUuid(id).Some? && UuidText(ParseUuid(id).value) !in jobs ==>
        r == Err(NotFound(NotFoundMessage(id)))
    {
      match ParseUuid(id)
      case None =>
        r := Err(InvalidUuidSyntax(id));
      case Some(bs) =>
        var key := UuidText(bs);
        if key in jobs {
          r := Ok(jobs[key]);
        } else {
          r := Err(NotFound(NotFoundMessage(id)));
        }
    }

    /** simulateJobCompletion, one tick of the schedule: the oldest running
        job, if any, is completed at now with a simulated row count. */
    method SimulateJobCompletion(now: int, random: real) returns (done: Option<string>)
      requires 0.0 <= random < 1.0
      modifies this
      ensures done == None <==> Running(old(jobs)) == {}
      ensures done == None ==> jobs == old(jobs)
      ensures done.Some? ==>
        && IsOldestRunning(old(jobs), done.value)
        && jobs == old(jobs)[done.value := Completed(old(jobs)[done.value], now, SimulatedRows(random))]
    {
      OldestExists(jobs);
      if Running(jobs) == {} {
        done := None;
      } else {
        var id :| IsOldestRunning(jobs, id);
        jobs := jobs[id := Completed(jobs[id], now, SimulatedRows(random))];
        done := Some(id);
      }
    }
  }
}
