/** The chunk loop of `Gen3Submission.submit_file` (gen3/submission.py): the
    rows of the table go to the submission API a chunk at a time; each
    response is classified, recorded in the results, and decides the next
    chunk: the following rows, a smaller chunk after an overload, or the
    valid entities of a rejected chunk once more.

    The API is an oracle: `server(i, request)` is the response to the
    request sent as call number `i` (from 0). Overloads cannot go on for
    ever: the chunk halves down to one row, and an overload at one row ends
    the run. A submission can still go on for ever when rejections keep
    every row of their chunk (a response that names each row of the chunk
    as valid and some other entity as invalid sends the same chunk again) or
    when the chunk size is 0, so the model runs for at most `fuel` requests
    and reports a run cut short as unfinished. */
module Submission {
  import opened Text
  import opened SubmitPrechecks

  /** One entry of the `entities` list of a response. */
  datatype Entity = Entity(submitterId: string, valid: bool, errors: string)

  /** A response body that parsed as a JSON object: the keys the loop reads.
      A missing `entities` key reads as an empty list. */
  datatype Body = Body(
    message: Option<string>,
    code: Option<int>,
    entities: seq<Entity>,
    transactionalErrors: Option<string>)

  /** The text of a response and, when it is valid JSON, its parsed body. */
  datatype Response = Response(text: string, parsed: Option<Body>)

  /** What is sent: the target and the rows of the chunk under the header. */
  datatype Request = Request(program: string, project: string, header: seq<string>, rows: seq<seq<string>>)

  /** The four texts that mark an overload. */
  const OverloadMarkers: seq<string> := [
    "Request Timeout", "413 Request Entity Too Large",
    "Connection aborted.", "service failure - try again later"]

  /** The API says it is overloaded: the text holds one of the markers. */
  predicate Overloaded(text: string) {
    ContainsAny(text, OverloadMarkers)
  }

  /** A response is an overload notice exactly when one of the four marker
      texts occurs somewhere in it. */
  lemma OverloadedIffMarker(text: string)
    ensures Overloaded(text) <==> exists m, i :: m in OverloadMarkers && OccursAt(text, m, i)
  {
    ContainsAnyIff(text, OverloadMarkers);
  }

  /** How the loop reads a response. */
  datatype Verdict =
    | Overload
    | Unparseable
    | NoCode(message: string, transactionalErrors: Option<string>)
    | Unhandled
    | Accepted(entities: seq<Entity>)     // code 200
    | Rejected(entities: seq<Entity>)     // code 400, 403 or 404
    | ServerError                         // code 500
    | Ignored                             // any other code

  function Classify(r: Response): Verdict {
    if Overloaded(r.text) then Overload
    else match r.parsed
      case None => Unparseable
      case Some(body) =>
        if body.message.Some? && body.code.None? then NoCode(body.message.value, body.transactionalErrors)
        else if body.code.None? then Unhandled
        else if body.code.value == 200 then Accepted(body.entities)
        else if body.code.value in {400, 403, 404} then Rejected(body.entities)
        else if body.code.value == 500 then ServerError
        else Ignored
  }

  /** The verdict of each response: an overload marker wins over anything
      the body says; then a body that is not JSON; then, without a `code`, a
      `message` or nothing; with a code, 200 accepts, 400, 403 and 404 reject,
      500 is a server error, and every other code is ignored. A message
      beside a code plays no part. */
  lemma ClassifyVerdicts(r: Response)
    ensures Classify(r).Overload? <==> Overloaded(r.text)
    ensures Classify(r).Unparseable? <==> !Overloaded(r.text) && r.parsed.None?
    ensures Classify(r).NoCode? <==>
              !Overloaded(r.text) && r.parsed.Some? && r.parsed.value.code.None? && r.parsed.value.message.Some?
    ensures Classify(r).Unhandled? <==>
              !Overloaded(r.text) && r.parsed.Some? && r.parsed.value.code.None? && r.parsed.value.message.None?
    ensures Classify(r).Accepted? <==> !Overloaded(r.text) && r.parsed.Some? && r.parsed.value.code == Some(200)
    ensures Classify(r).Rejected? <==>
              !Overloaded(r.text) && r.parsed.Some? && r.parsed.value.code.Some?
              && r.parsed.value.code.value in {400, 403, 404}
    ensures Classify(r).ServerError? <==> !Overloaded(r.text) && r.parsed.Some? && r.parsed.value.code == Some(500)
    ensures Classify(r).Ignored? <==>
              !Overloaded(r.text) && r.parsed.Some? && r.parsed.value.code.Some?
              && r.parsed.value.code.value !in {200, 400, 403, 404, 500}
    ensures Classify(r).Accepted? || Classify(r).Rejected? ==> Classify(r).entities == r.parsed.value.entities
    ensures Classify(r).NoCode? ==>
              Classify(r).message == r.parsed.value.message.value
              && Classify(r).transactionalErrors == r.parsed.value.transactionalErrors
  {
  }

  /** An entry of `results["responses"]`. */
  datatype TraceLine =
    | ReducingChunkSize(response: string)
    | ErrorChunk(chunk: nat, message: string)
    | UnhandledResponse(response: string)
    | ChunkSucceeded(chunk: nat, entities: nat)
    | ChunkFailed(chunk: nat, entities: nat)
    | InternalServerError(response: string)

  /** The `results` dictionary. The only write to `details` is in the
      handler of a connection error, which raises before it appends anything,
      so `details` stays empty. */
  datatype Results = Results(
    invalid: map<string, string>,
    other: seq<Option<string>>,
    details: seq<string>,
    succeeded: seq<string>,
    responses: seq<TraceLine>)

  const NoResults := Results(map[], [], [], [], [])

  function SubmitterIdsOf(entities: seq<Entity>): (ids: seq<string>)
    ensures |ids| == |entities|
    ensures forall k :: 0 <= k < |ids| ==> ids[k] == entities[k].submitterId
  {
    seq(|entities|, k requires 0 <= k < |entities| => entities[k].submitterId)
  }

  /** The ids of the valid entities, in order. */
  function ValidIds(entities: seq<Entity>): seq<string> {
    if |entities| == 0 then []
    else
      var e := entities[|entities| - 1];
      var ids := ValidIds(entities[..|entities| - 1]);
      if e.valid then ids + [e.submitterId] else ids
  }

  /** An id is collected as valid exactly when a valid entity carries it. */
  lemma {:induction false} ValidIdsMembers(entities: seq<Entity>)
    ensures forall x :: x in ValidIds(entities) <==>
                        exists k :: 0 <= k < |entities| && entities[k].valid && entities[k].submitterId == x
  {
    if |entities| > 0 {
      var init := entities[..|entities| - 1];
      ValidIdsMembers(init);
      assert forall k :: 0 <= k < |init| ==> init[k] == entities[k];
    }
  }

  /** The ids of the invalid entities, in order. */
  function InvalidIds(entities: seq<Entity>): seq<string> {
    if |entities| == 0 then []
    else
      var e := entities[|entities| - 1];
      var ids := InvalidIds(entities[..|entities| - 1]);
      if e.valid then ids else ids + [e.submitterId]
  }

  /** An id is collected as invalid exactly when an invalid entity carries
      it. */
  lemma {:induction false} InvalidIdsMembers(entities: seq<Entity>)
    ensures forall x :: x in InvalidIds(entities) <==>
                        exists k :: 0 <= k < |entities| && !entities[k].valid && entities[k].submitterId == x
  {
    if |entities| > 0 {
      var init := entities[..|entities| - 1];
      InvalidIdsMembers(init);
      assert forall k :: 0 <= k < |init| ==> init[k] == entities[k];
    }
  }

  /** `results["invalid"]` after the invalid entities of a rejected chunk
      are written into it, later entries overwriting earlier ones. */
  function RecordInvalid(invalid: map<string, string>, entities: seq<Entity>): map<string, string> {
    if |entities| == 0 then invalid
    else
      var e := entities[|entities| - 1];
      var m := RecordInvalid(invalid, entities[..|entities| - 1]);
      if e.valid then m else m[e.submitterId := e.errors]
  }

  /** Recording gains exactly the invalid ids as keys and keeps the entries
      of the other ids. */
  lemma {:induction false} RecordInvalidKeys(invalid: map<string, string>, entities: seq<Entity>)
    ensures var m := RecordInvalid(invalid, entities);
            && m.Keys == invalid.Keys + (set x | x in InvalidIds(entities))
            && forall x :: x in invalid && x !in InvalidIds(entities) ==> m[x] == invalid[x]
  {
    if |entities| > 0 {
      RecordInvalidKeys(invalid, entities[..|entities| - 1]);
    }
  }

  /** An invalid id keeps the error text of the last invalid entity that
      carries it. */
  lemma {:induction false} RecordInvalidLastWins(invalid: map<string, string>, entities: seq<Entity>, i: nat)
    requires i < |entities| && !entities[i].valid
    requires forall j :: i < j < |entities| && !entities[j].valid ==>
                           entities[j].submitterId != entities[i].submitterId
    ensures entities[i].submitterId in RecordInvalid(invalid, entities)
    ensures RecordInvalid(invalid, entities)[entities[i].submitterId] == entities[i].errors
  {
    var n := |entities| - 1;
    if i < n {
      var init := entities[..n];
      assert forall j :: i < j < n ==> init[j] == entities[j];
      RecordInvalidLastWins(invalid, init, i);
    }
  }

  /** `results` after the response to chunk number `count` was read. */
  function Record(results: Results, count: nat, r: Response, v: Verdict): Results {
    match v
    case Overload => results.(responses := results.responses + [ReducingChunkSize(r.text)])
    case Unparseable => results
    case NoCode(message, errors) =>
      results.(responses := results.responses + [ErrorChunk(count, message)],
               other := results.other + [errors])
    case Unhandled => results.(responses := results.responses + [UnhandledResponse(r.text)])
    case Accepted(entities) =>
      results.(responses := results.responses + [ChunkSucceeded(count, |entities|)],
               succeeded := results.succeeded + SubmitterIdsOf(entities))
    case Rejected(entities) =>
      results.(responses := results.responses + [ChunkFailed(count, |entities|)],
               invalid := RecordInvalid(results.invalid, entities))
    case ServerError => results.(responses := results.responses + [InternalServerError(r.text)])
    case Ignored => results
  }

  /** The loop variables between two requests. A chunk is a list of row
      positions of the table. */
  datatype Window = Window(start: nat, chunkSize: nat, chunk: seq<nat>, count: nat, results: Results)

  /** `df[start:start + size]` as positions. */
  function Slice(start: nat, size: nat, n: nat): (chunk: seq<nat>)
    ensures |chunk| == if start >= n then 0 else Min(size, n - start)
    ensures forall k :: 0 <= k < |chunk| ==> chunk[k] == start + k
  {
    seq(if start >= n then 0 else Min(size, n - start), k => start + k)
  }

  function Min(a: nat, b: nat): nat {
    if a <= b then a else b
  }

  /** `chunk.loc[df["submitter_id"].isin(keep)]`: the rows of the chunk whose
      submitter id is in `keep`, in chunk order. */
  function Retain(chunk: seq<nat>, ids: seq<string>, keep: seq<string>): (r: seq<nat>)
    requires forall p :: p in chunk ==> p < |ids|
    ensures |r| <= |chunk|
    ensures forall p :: p in r <==> p in chunk && ids[p] in keep
  {
    if |chunk| == 0 then []
    else
      var init := chunk[..|chunk| - 1];
      var p := chunk[|chunk| - 1];
      assert chunk == init + [p];
      assert forall q :: q in init ==> q in chunk;
      assert p in chunk;
      var r := Retain(init, ids, keep);
      if ids[p] in keep then r + [p] else r
  }

  /** The selection keeps the chunk's order: from a chunk in table order it
      gives a chunk in table order, which together with the membership
      clause of `Retain` fixes the selection exactly. */
  lemma {:induction false} RetainKeepsOrder(chunk: seq<nat>, ids: seq<string>, keep: seq<string>)
    requires forall p :: p in chunk ==> p < |ids|
    requires Increasing(chunk)
    ensures Increasing(Retain(chunk, ids, keep))
  {
    if |chunk| > 0 {
      var init := chunk[..|chunk| - 1];
      var p := chunk[|chunk| - 1];
      assert Increasing(init) && forall q :: q in init ==> q in chunk && q < p by {
        assert forall a :: 0 <= a < |init| ==> init[a] == chunk[a];
      }
      RetainKeepsOrder(init, ids, keep);
      var r := Retain(init, ids, keep);
      assert forall a :: 0 <= a < |r| ==> r[a] < p by {
        assert forall a :: 0 <= a < |r| ==> r[a] in r;
      }
      AppendInOrder(r, p);
    }
  }

  lemma AppendInOrder(r: seq<nat>, p: nat)
    requires Increasing(r) && forall a :: 0 <= a < |r| ==> r[a] < p
    ensures Increasing(r + [p])
  {
  }

  /** Row positions in strictly increasing order, as pandas keeps the rows
      of a slice or of a selection from it. */
  predicate Increasing(chunk: seq<nat>) {
    forall a, b :: 0 <= a < b < |chunk| ==> chunk[a] < chunk[b]
  }

  /** A window whose chunk names rows of the job's table. */
  predicate Fits(job: Job, w: Window) {
    && |job.ids| == |job.rows|
    && forall p :: p in w.chunk ==> p < |job.rows|
  }

  /** `chunk.to_csv(sep="\t")` before formatting: the header and the rows. */
  function RequestOf(job: Job, chunk: seq<nat>): Request
    requires forall p :: p in chunk ==> p < |job.rows|
  {
    Request(job.program, job.project, job.columns, seq(|chunk|, k requires 0 <= k < |chunk| =>
      assert chunk[k] in chunk; job.rows[chunk[k]]))
  }

  /** The loop condition `start + len(chunk) <= len(df)`. */
  predicate Continues(job: Job, w: Window) {
    w.start + |w.chunk| <= |job.rows|
  }

  datatype StepOutcome = Next(window: Window) | Raise(error: SubmitError)

  /** One pass of the loop body, given the response to the window's chunk. */
  function Step(job: Job, w: Window, r: Response): (o: StepOutcome)
    requires Fits(job, w)
    ensures o.Next? ==> Fits(job, o.window) && o.window.count == w.count + 1
  {
    var v := Classify(r);
    var count := w.count + 1;
    if v.Unparseable? then Raise(UnparseableResponse)
    else
      var results := Record(w.results, count, r, v);
      var validButFailed := if v.Rejected? then ValidIds(v.entities) else [];
      var invalid := if v.Rejected? then InvalidIds(v.entities) else [];
      if |validButFailed| > 0 && |invalid| > 0 then
        Next(Window(w.start, w.chunkSize, Retain(w.chunk, job.ids, validButFailed), count, results))
      else if |validButFailed| > 0 then Raise(ValidEntitiesRejected)
      else if !v.Overload? then
        Next(Window(w.start + w.chunkSize, w.chunkSize, Slice(w.start + w.chunkSize, w.chunkSize, |job.rows|), count, results))
      else if w.chunkSize >= 2 then
        Next(Window(w.start, w.chunkSize / 2, Slice(w.start, w.chunkSize / 2, |job.rows|), count, results))
      else Raise(TimingOut)
  }

  /** How a submission ends: the results it returns, the exception it
      raises, or, in the model only, the window at which the fuel ran out. */
  datatype Outcome = Returned(results: Results) | Raised(error: SubmitError) | Unfinished(window: Window)

  /** A run of the loop: the windows from which a request was sent, in order,
      the window it stopped at, and how it ended. */
  datatype Run = Run(trail: seq<Window>, last: Window, end: Outcome)

  /** The loop from window `w`, with at most `fuel` more requests. */
  function RunFrom(job: Job, server: (nat, Request) -> Response, w: Window, fuel: nat): (run: Run)
    requires Fits(job, w)
    ensures |run.trail| <= fuel
    decreases fuel
  {
    if !Continues(job, w) then Run([], w, Returned(w.results))
    else if fuel == 0 then Run([], w, Unfinished(w))
    else
      match Step(job, w, server(w.count, RequestOf(job, w.chunk)))
      case Raise(e) => Run([w], w, Raised(e))
      case Next(w') =>
        var rest := RunFrom(job, server, w', fuel - 1);
        Run([w] + rest.trail, rest.last, rest.end)
  }

  /** The window before the first request. */
  function FirstWindow(job: Job, chunkSize: nat, rowOffset: nat): Window {
    Window(rowOffset, chunkSize, Slice(rowOffset, chunkSize, |job.rows|), 0, NoResults)
  }

  /** What a submission sends, chunk by chunk, and how it ends. */
  datatype Attempt = Attempt(sent: seq<seq<nat>>, end: Outcome)

  function Sent(trail: seq<Window>): (chunks: seq<seq<nat>>)
    ensures |chunks| == |trail|
    ensures forall k :: 0 <= k < |trail| ==> chunks[k] == trail[k].chunk
  {
    seq(|trail|, k requires 0 <= k < |trail| => trail[k].chunk)
  }

  /** `submit_file` with at most `fuel` requests: a failed check raises
      before anything is sent, and a submission cut short has used all of
      its requests. */
  function Submit(projectId: string, filename: string, table: Table, chunkSize: nat, rowOffset: nat,
                  server: (nat, Request) -> Response, fuel: nat): (a: Attempt)
    ensures |a.sent| <= fuel
    ensures Prepare(projectId, filename, table).Err? ==>
              a == Attempt([], Raised(Prepare(projectId, filename, table).error))
    ensures a.end.Unfinished? ==> |a.sent| == fuel
  {
    match Prepare(projectId, filename, table)
    case Err(e) => Attempt([], Raised(e))
    case Ok(job) =>
      var w := FirstWindow(job, chunkSize, rowOffset);
      RunEnds(job, server, w, fuel);
      var run := RunFrom(job, server, w, fuel);
      Attempt(Sent(run.trail), run.end)
  }

  /** Which entries of `results` each verdict touches: one trace line for
      every verdict but an unparseable or ignored response, the succeeded ids
      only on a 200, the invalid map only on a rejection, `other` only on a
      response without a code, and never `details`. */
  lemma RecordTouches(results: Results, count: nat, r: Response, v: Verdict)
    ensures var res := Record(results, count, r, v);
            && res.details == results.details
            && results.responses <= res.responses
            && |res.responses| == |results.responses| + (if v.Unparseable? || v.Ignored? then 0 else 1)
            && (v.Accepted? ==> res.succeeded == results.succeeded + SubmitterIdsOf(v.entities))
            && (!v.Accepted? ==> res.succeeded == results.succeeded)
            && (v.Rejected? ==> res.invalid == RecordInvalid(results.invalid, v.entities))
            && (!v.Rejected? ==> res.invalid == results.invalid)
            && (v.NoCode? ==> res.other == results.other + [v.transactionalErrors])
            && (!v.NoCode? ==> res.other == results.other)
  {
  }

  // ---------------------------------------------------------------------
  // What one pass of the loop does.

  /** A response that is neither an overload notice nor JSON raises. */
  lemma StepRaisesOnUnparseable(job: Job, w: Window, r: Response)
    requires Fits(job, w)
    requires !Overloaded(r.text) && r.parsed.None?
    ensures Step(job, w, r) == Raise(UnparseableResponse)
  {
  }

  /** An overload halves the chunk size and resends from the same row, or
      raises once the chunk size is below 2. */
  lemma StepOnOverload(job: Job, w: Window, r: Response)
    requires Fits(job, w)
    requires Overloaded(r.text)
    ensures Record(w.results, w.count + 1, r, Classify(r))
              == w.results.(responses := w.results.responses + [ReducingChunkSize(r.text)])
    ensures var results := Record(w.results, w.count + 1, r, Classify(r));
            Step(job, w, r) ==
              if w.chunkSize >= 2 then
                Next(Window(w.start, w.chunkSize / 2, Slice(w.start, w.chunkSize / 2, |job.rows|), w.count + 1, results))
              else Raise(TimingOut)
  {
  }

  /** Any other response that sends no valid entity back moves on by exactly
      the chunk size, keeping the chunk size. */
  lemma StepAdvances(job: Job, w: Window, r: Response)
    requires Fits(job, w)
    requires var v := Classify(r); !v.Overload? && !v.Unparseable? && (v.Rejected? ==> ValidIds(v.entities) == [])
    ensures Step(job, w, r) ==
              Next(Window(w.start + w.chunkSize, w.chunkSize, Slice(w.start + w.chunkSize, w.chunkSize, |job.rows|),
                          w.count + 1, Record(w.results, w.count + 1, r, Classify(r))))
  {
  }

  /** A rejected chunk with both valid and invalid entities is sent again
      from the same row, holding only the rows of the valid entities. */
  lemma StepRetries(job: Job, w: Window, r: Response)
    requires Fits(job, w)
    requires var v := Classify(r); v.Rejected? && |ValidIds(v.entities)| > 0 && |InvalidIds(v.entities)| > 0
    ensures var v := Classify(r);
            Step(job, w, r) ==
              Next(Window(w.start, w.chunkSize, Retain(w.chunk, job.ids, ValidIds(v.entities)), w.count + 1,
                          Record(w.results, w.count + 1, r, v)))
    ensures var v := Classify(r);
            Record(w.results, w.count + 1, r, v) ==
              w.results.(responses := w.results.responses + [ChunkFailed(w.count + 1, |v.entities|)],
                         invalid := RecordInvalid(w.results.invalid, v.entities))
  {
  }

  /** A rejected chunk whose failed entities are all valid raises. */
  lemma StepRaisesOnValidOnly(job: Job, w: Window, r: Response)
    requires Fits(job, w)
    requires var v := Classify(r); v.Rejected? && |ValidIds(v.entities)| > 0 && InvalidIds(v.entities) == []
    ensures Step(job, w, r) == Raise(ValidEntitiesRejected)
  {
  }

  /** A 200 response appends the submitter ids of its entities, in order,
      and the loop moves on by the chunk size. */
  lemma StepRecordsSuccess(job: Job, w: Window, r: Response)
    requires Fits(job, w)
    requires Classify(r).Accepted?
    ensures var es := Classify(r).entities;
            && Step(job, w, r).Next?
            && Step(job, w, r).window.results.succeeded == w.results.succeeded + SubmitterIdsOf(es)
            && Step(job, w, r).window.results.invalid == w.results.invalid
            && Step(job, w, r).window.start == w.start + w.chunkSize
            && Step(job, w, r).window.chunkSize == w.chunkSize
  {
    StepAdvances(job, w, r);
  }

  /** The chunk sent again after a partial rejection holds rows of the
      current chunk only, each with an id reported valid, and none whose id
      was reported only as invalid. */
  lemma RetryDropsInvalid(job: Job, w: Window, r: Response)
    requires Fits(job, w)
    requires var v := Classify(r); v.Rejected? && |ValidIds(v.entities)| > 0 && |InvalidIds(v.entities)| > 0
    ensures var es := Classify(r).entities;
            var next := Step(job, w, r).window;
            && Step(job, w, r).Next?
            && |next.chunk| <= |w.chunk|
            && (forall p :: p in next.chunk ==> p in w.chunk && job.ids[p] in ValidIds(es))
            && (forall p :: p in w.chunk && job.ids[p] !in ValidIds(es) ==> p !in next.chunk)
            && (forall x :: x in InvalidIds(es) ==> x in next.results.invalid)
  {
    StepRetries(job, w, r);
    RecordInvalidKeys(w.results.invalid, Classify(r).entities);
  }

  /** A window and one reached from it later: the chunk size never grows,
      the start never moves back, and the results only grow. */
  predicate NoLater(a: Window, b: Window) {
    && b.chunkSize <= a.chunkSize
    && a.start <= b.start
    && a.count <= b.count
    && a.results.succeeded <= b.results.succeeded
    && a.results.responses <= b.results.responses
    && a.results.other <= b.results.other
    && a.results.invalid.Keys <= b.results.invalid.Keys
    && a.results.details == b.results.details
  }

  lemma NoLaterTransitive(a: Window, b: Window, c: Window)
    requires NoLater(a, b) && NoLater(b, c)
    ensures NoLater(a, c)
  {
  }

  /** One pass of the loop keeps or halves the chunk size, keeps or advances
      the start, adds at most one line to the responses and counts one more
      request. */
  lemma StepMonotone(job: Job, w: Window, r: Response)
    requires Fits(job, w)
    requires Step(job, w, r).Next?
    ensures var next := Step(job, w, r).window;
            && NoLater(w, next)
            && next.count == w.count + 1
            && (next.chunkSize == w.chunkSize || next.chunkSize == w.chunkSize / 2)
            && |next.results.responses| <= |w.results.responses| + 1
  {
    var v := Classify(r);
    if v.Rejected? {
      var es := v.entities;
      RecordInvalidKeys(w.results.invalid, es);
    }
  }

  /** The windows a run passes through: those it sent from and the one it
      stopped at. */
  function Passed(run: Run): seq<Window> {
    run.trail + [run.last]
  }

  /** Along a run, every later window is `NoLater` than every earlier one. */
  lemma RunMonotone(job: Job, server: (nat, Request) -> Response, w: Window, fuel: nat)
    requires Fits(job, w)
    ensures var ws := Passed(RunFrom(job, server, w, fuel));
            && ws[0] == w
            && (forall i, j :: 0 <= i <= j < |ws| ==> NoLater(ws[i], ws[j]))
  {
    RunChained(job, server, w, fuel);
    ChainedAll(Passed(RunFrom(job, server, w, fuel)));
  }

  /** Each window of `ws` is `NoLater` than the one before it. */
  predicate Chained(ws: seq<Window>) {
    forall k :: 0 <= k < |ws| - 1 ==> NoLater(ws[k], ws[k + 1])
  }

  /** `ws` starts at `w` and is chained. */
  predicate ChainFrom(w: Window, ws: seq<Window>) {
    |ws| > 0 && ws[0] == w && Chained(ws)
  }

  lemma {:induction false} ChainedAll(ws: seq<Window>)
    requires Chained(ws)
    ensures forall i, j :: 0 <= i <= j < |ws| ==> NoLater(ws[i], ws[j])
    decreases |ws|
  {
    if |ws| > 1 {
      var init := ws[..|ws| - 1];
      assert Chained(init) by {
        forall k | 0 <= k < |init| - 1 ensures NoLater(init[k], init[k + 1]) {
          assert init[k] == ws[k] && init[k + 1] == ws[k + 1];
        }
      }
      ChainedAll(init);
      forall i, j | 0 <= i <= j < |ws| ensures NoLater(ws[i], ws[j]) {
        if j == |ws| - 1 && i < j {
          assert NoLater(init[i], init[j - 1]);
          NoLaterTransitive(ws[i], ws[j - 1], ws[j]);
        } else if j < |ws| - 1 {
          assert NoLater(init[i], init[j]);
        }
      }
    }
  }

  lemma {:induction false} RunChained(job: Job, server: (nat, Request) -> Response, w: Window, fuel: nat)
    requires Fits(job, w)
    ensures ChainFrom(w, Passed(RunFrom(job, server, w, fuel)))
    decreases fuel
  {
    var more, w' := Advance(job, server, w, fuel);
    if more {
      RunChained(job, server, w', fuel - 1);
      ChainStep(w, w', RunFrom(job, server, w, fuel), RunFrom(job, server, w', fuel - 1));
    } else {
      StopChained(w, Passed(RunFrom(job, server, w, fuel)));
    }
  }

  /** The first pass of a run: either it goes on from a `NoLater` window, or
      the run passes through its first window only. */
  lemma Advance(job: Job, server: (nat, Request) -> Response, w: Window, fuel: nat) returns (more: bool, w': Window)
    requires Fits(job, w)
    ensures more ==> && fuel > 0 && Continues(job, w) && Fits(job, w') && NoLater(w, w')
                     && w'.count == w.count + 1
                     && var rest := RunFrom(job, server, w', fuel - 1);
                        RunFrom(job, server, w, fuel) == Run([w] + rest.trail, rest.last, rest.end)
    ensures !more ==> var ws := Passed(RunFrom(job, server, w, fuel));
                      |ws| > 0 && forall k :: 0 <= k < |ws| ==> ws[k] == w
    ensures !more ==> var trail := RunFrom(job, server, w, fuel).trail;
                      trail == [] || (trail == [w] && Continues(job, w))
    ensures !more ==> EndsAsLoop(job, RunFrom(job, server, w, fuel), fuel)
  {
    var ws := Passed(RunFrom(job, server, w, fuel));
    w' := w;
    more := Continues(job, w) && fuel > 0 && Step(job, w, server(w.count, RequestOf(job, w.chunk))).Next?;
    if more {
      var r := server(w.count, RequestOf(job, w.chunk));
      w' := Step(job, w, r).window;
      StepMonotone(job, w, r);
      RunUnfold(job, server, w, fuel);
    } else {
      assert forall k :: 0 <= k < |ws| ==> ws[k] == w;
    }
  }

  lemma StopChained(w: Window, ws: seq<Window>)
    requires |ws| > 0 && forall k :: 0 <= k < |ws| ==> ws[k] == w
    ensures ChainFrom(w, ws)
  {
  }

  lemma ChainStep(w: Window, w': Window, run: Run, rest: Run)
    requires run == Run([w] + rest.trail, rest.last, rest.end)
    requires NoLater(w, w') && ChainFrom(w', Passed(rest))
    ensures ChainFrom(w, Passed(run))
  {
    PassedCons(run, rest, w);
    ChainCons(w, w', Passed(rest));
  }

  lemma PassedCons(run: Run, rest: Run, w: Window)
    requires run == Run([w] + rest.trail, rest.last, rest.end)
    ensures Passed(run) == [w] + Passed(rest)
  {
  }

  lemma ChainCons(w: Window, w': Window, ws: seq<Window>)
    requires |ws| > 0 && ws[0] == w' && NoLater(w, w') && Chained(ws)
    ensures ([w] + ws)[0] == w && Chained([w] + ws)
  {
    var all := [w] + ws;
    forall k | 0 <= k < |all| - 1 ensures NoLater(all[k], all[k + 1]) {
      if k > 0 {
        assert all[k] == ws[k - 1] && all[k + 1] == ws[k];
      }
    }
  }

  /** Along a run, the request counter goes up by one per request. */
  lemma {:induction false} RunCounts(job: Job, server: (nat, Request) -> Response, w: Window, fuel: nat)
    requires Fits(job, w)
    ensures CountedFrom(RunFrom(job, server, w, fuel).trail, w.count)
    decreases fuel
  {
    var more, w', all, rest := AdvanceTrail(job, server, w, fuel);
    if more {
      RunCounts(job, server, w', fuel - 1);
      CountsCons(w, w', all, rest);
    }
  }

  /** The windows of `trail` were sent with counters `count`, `count + 1`, …. */
  predicate CountedFrom(trail: seq<Window>, count: nat) {
    forall i :: 0 <= i < |trail| ==> trail[i].count == count + i
  }

  lemma CountsCons(w: Window, w': Window, all: seq<Window>, trail: seq<Window>)
    requires all == [w] + trail
    requires w'.count == w.count + 1 && CountedFrom(trail, w'.count)
    ensures CountedFrom(all, w.count)
  {
    assert forall i :: 0 < i < |all| ==> all[i] == trail[i - 1];
  }

  /** Every request of a run is sent with the loop condition holding. */
  lemma {:induction false} RunSendsWhileContinuing(job: Job, server: (nat, Request) -> Response, w: Window, fuel: nat)
    requires Fits(job, w)
    ensures SentWhile(job, RunFrom(job, server, w, fuel).trail)
    decreases fuel
  {
    var more, w', all, rest := AdvanceTrail(job, server, w, fuel);
    if more {
      RunSendsWhileContinuing(job, server, w', fuel - 1);
      SentWhileCons(job, w, all, rest);
    }
  }

  /** The next chunk keeps table order: a slice is in order, and a retried
      chunk is a selection from the chunk before it. */
  lemma StepKeepsOrder(job: Job, w: Window, r: Response)
    requires Fits(job, w) && Increasing(w.chunk)
    requires Step(job, w, r).Next?
    ensures Increasing(Step(job, w, r).window.chunk)
  {
    var v := Classify(r);
    if v.Rejected? {
      RetainKeepsOrder(w.chunk, job.ids, ValidIds(v.entities));
    }
  }

  /** Every chunk of `trail` is in table order. */
  predicate ChunksInOrder(trail: seq<Window>) {
    forall i :: 0 <= i < |trail| ==> Increasing(trail[i].chunk)
  }

  /** Every request of a run sends its rows in table order, as
      `chunk.to_csv` writes the rows of a slice or a `.loc` selection. */
  lemma {:induction false} RunSendsRowsInOrder(job: Job, server: (nat, Request) -> Response, w: Window, fuel: nat)
    requires Fits(job, w) && Increasing(w.chunk)
    ensures ChunksInOrder(RunFrom(job, server, w, fuel).trail)
    decreases fuel
  {
    var more, w', all, rest := AdvanceInOrder(job, server, w, fuel);
    if more {
      RunSendsRowsInOrder(job, server, w', fuel - 1);
      InOrderCons(w, all, rest);
    }
  }

  lemma InOrderCons(w: Window, all: seq<Window>, trail: seq<Window>)
    requires all == [w] + trail
    requires Increasing(w.chunk) && ChunksInOrder(trail)
    ensures ChunksInOrder(all)
  {
    assert forall i :: 0 < i < |all| ==> all[i] == trail[i - 1];
  }

  /** The first pass of a run from a window in table order. */
  lemma AdvanceInOrder(job: Job, server: (nat, Request) -> Response, w: Window, fuel: nat)
    returns (more: bool, w': Window, all: seq<Window>, rest: seq<Window>)
    requires Fits(job, w) && Increasing(w.chunk)
    ensures all == RunFrom(job, server, w, fuel).trail
    ensures more ==> && fuel > 0 && Fits(job, w') && Increasing(w'.chunk)
                     && rest == RunFrom(job, server, w', fuel - 1).trail && all == [w] + rest
    ensures !more ==> all == [] || all == [w]
  {
    all := RunFrom(job, server, w, fuel).trail;
    more := Continues(job, w) && fuel > 0 && Step(job, w, server(w.count, RequestOf(job, w.chunk))).Next?;
    w', rest := w, [];
    if more {
      var r := server(w.count, RequestOf(job, w.chunk));
      w' := Step(job, w, r).window;
      StepKeepsOrder(job, w, r);
      RunUnfold(job, server, w, fuel);
      rest := RunFrom(job, server, w', fuel - 1).trail;
    }
  }

  /** The first pass of a run, as its windows: either the run's windows are
      `w` and then those of the run from the next window, or it sent at most
      the one request, from a window where the loop condition held. */
  lemma AdvanceTrail(job: Job, server: (nat, Request) -> Response, w: Window, fuel: nat)
    returns (more: bool, w': Window, all: seq<Window>, rest: seq<Window>)
    requires Fits(job, w)
    ensures all == RunFrom(job, server, w, fuel).trail
    ensures more ==> && fuel > 0 && Fits(job, w') && w'.count == w.count + 1 && Continues(job, w)
                     && rest == RunFrom(job, server, w', fuel - 1).trail && all == [w] + rest
    ensures !more ==> all == [] || (all == [w] && Continues(job, w))
  {
    all := RunFrom(job, server, w, fuel).trail;
    more, w' := Advance(job, server, w, fuel);
    rest := if more then RunFrom(job, server, w', fuel - 1).trail else [];
  }

  /** Every window of `trail` satisfies the loop condition. */
  predicate SentWhile(job: Job, trail: seq<Window>) {
    forall i :: 0 <= i < |trail| ==> Continues(job, trail[i])
  }

  lemma SentWhileCons(job: Job, w: Window, all: seq<Window>, trail: seq<Window>)
    requires all == [w] + trail
    requires Continues(job, w) && SentWhile(job, trail)
    ensures SentWhile(job, all)
  {
    assert forall i :: 0 < i < |all| ==> all[i] == trail[i - 1];
  }

  /** A pass that continues the run puts its window in front of the rest of
      the run. */
  lemma RunUnfold(job: Job, server: (nat, Request) -> Response, w: Window, fuel: nat)
    requires Fits(job, w) && Continues(job, w) && fuel > 0
    requires Step(job, w, server(w.count, RequestOf(job, w.chunk))).Next?
    ensures var w' := Step(job, w, server(w.count, RequestOf(job, w.chunk))).window;
            && Fits(job, w')
            && w'.count == w.count + 1
            && var rest := RunFrom(job, server, w', fuel - 1);
               RunFrom(job, server, w, fuel) == Run([w] + rest.trail, rest.last, rest.end)
  {
  }

  /** The loop returns only once `start + len(chunk) > len(df)`, with the
      results of that window; a run cut short used up its fuel. */
  lemma {:induction false} RunEnds(job: Job, server: (nat, Request) -> Response, w: Window, fuel: nat)
    requires Fits(job, w)
    ensures EndsAsLoop(job, RunFrom(job, server, w, fuel), fuel)
    decreases fuel
  {
    var more, w' := Advance(job, server, w, fuel);
    if more {
      RunEnds(job, server, w', fuel - 1);
      EndsCons(job, w, RunFrom(job, server, w, fuel), RunFrom(job, server, w', fuel - 1), fuel);
    }
  }

  /** How a run with `fuel` requests can end: returning once the loop
      condition fails, with that window's results; unfinished after all of
      its fuel with the condition still holding; or raising on the window of
      its last request. */
  predicate EndsAsLoop(job: Job, run: Run, fuel: nat) {
    && (run.end.Returned? ==> !Continues(job, run.last) && run.end.results == run.last.results)
    && (run.end.Unfinished? ==> |run.trail| == fuel && Continues(job, run.last))
    && (run.end.Raised? ==> |run.trail| >= 1 && run.last == run.trail[|run.trail| - 1])
  }

  lemma EndsCons(job: Job, w: Window, run: Run, rest: Run, fuel: nat)
    requires run == Run([w] + rest.trail, rest.last, rest.end)
    requires fuel > 0 && EndsAsLoop(job, rest, fuel - 1)
    ensures EndsAsLoop(job, run, fuel)
  {
  }

  /** A submission stopped by a check on the file, its columns, its ids or
      the project id sends no request. */
  lemma PrecheckFailureSendsNothing(projectId: string, filename: string, table: Table, chunkSize: nat,
                                    rowOffset: nat, server: (nat, Request) -> Response, fuel: nat)
    requires Prepare(projectId, filename, table).Err?
    ensures var attempt := Submit(projectId, filename, table, chunkSize, rowOffset, server, fuel);
            attempt.sent == [] && attempt.end == Raised(Prepare(projectId, filename, table).error)
  {
  }

  /** A file with a repeated submitter id raises before any request. */
  lemma DuplicateIdsSendNothing(projectId: string, filename: string, table: Table, chunkSize: nat,
                                rowOffset: nat, server: (nat, Request) -> Response, fuel: nat)
    requires FormatOf(filename).Ok?
    requires "submitter_id" in RenameColumns(table.columns)
    requires !Distinct(SubmitterIds(table))
    ensures Submit(projectId, filename, table, chunkSize, rowOffset, server, fuel)
            == Attempt([], Raised(DuplicateSubmitterIds))
  {
    DuplicateIdsRejected(projectId, filename, table);
  }

  /** A server that never reports an overload, never answers with anything
      but JSON and never sends valid entities back. */
  ghost predicate AlwaysAdvances(server: (nat, Request) -> Response) {
    forall i, req :: Advances(Classify(server(i, req)))
  }

  predicate Advances(v: Verdict) {
    !v.Overload? && !v.Unparseable? && (v.Rejected? ==> ValidIds(v.entities) == [])
  }

  /** The chunks sent, one after another. */
  function Flatten(chunks: seq<seq<nat>>): seq<nat> {
    if |chunks| == 0 then [] else chunks[0] + Flatten(chunks[1..])
  }

  /** The chunks the loop sends from row `start` on when each one is let
      through: one chunk of `size` rows after another, and then one more
      chunk that holds the rows that are left, or none. */
  function Plan(start: nat, size: nat, n: nat): (chunks: seq<seq<nat>>)
    requires size >= 1 && start <= n
    ensures |chunks| >= 1
    decreases n - start
  {
    if start + size > n then [Slice(start, size, n)]
    else [Slice(start, size, n)] + Plan(start + size, size, n)
  }

  /** With a server that lets every chunk through, the loop sends exactly
      the planned chunks and returns. */
  lemma {:induction false} RunFollowsPlan(job: Job, server: (nat, Request) -> Response, w: Window, fuel: nat)
    requires Fits(job, w) && AlwaysAdvances(server)
    requires w.chunkSize >= 1 && w.start <= |job.rows|
    requires w.chunk == Slice(w.start, w.chunkSize, |job.rows|)
    requires fuel >= |Plan(w.start, w.chunkSize, |job.rows|)|
    ensures var run := RunFrom(job, server, w, fuel);
            run.end.Returned? && Sent(run.trail) == Plan(w.start, w.chunkSize, |job.rows|)
    decreases |job.rows| - w.start
  {
    var n := |job.rows|;
    var w' := AdvanceOnce(job, server, w, fuel);
    if w.start + w.chunkSize <= n {
      var rest := RunFrom(job, server, w', fuel - 1).trail;
      RunFollowsPlan(job, server, w', fuel - 1);
      SentFollowsPlan(w, rest, n);
    } else {
      assert !Continues(job, w');
      SentFollowsPlan(w, [], n);
    }
  }

  /** A chunk sent from `w` followed by the chunks planned after it are the
      chunks planned from `w`. */
  lemma SentFollowsPlan(w: Window, trail: seq<Window>, n: nat)
    requires w.chunkSize >= 1 && w.start <= n
    requires w.chunk == Slice(w.start, w.chunkSize, n)
    requires w.start + w.chunkSize <= n ==> Sent(trail) == Plan(w.start + w.chunkSize, w.chunkSize, n)
    requires w.start + w.chunkSize > n ==> trail == []
    ensures Sent([w] + trail) == Plan(w.start, w.chunkSize, n)
  {
    assert Sent([w] + trail) == [w.chunk] + Sent(trail);
  }

  /** The planned chunks cover the rows from `start` on, each once and in
      order; there are `(n - start) / size + 1` of them, and the last is
      empty exactly when the rows divide evenly into chunks. */
  lemma PlanCoversRows(start: nat, size: nat, n: nat)
    requires size >= 1 && start <= n
    ensures var plan := Plan(start, size, n);
            && Flatten(plan) == Slice(start, n - start, n)
            && |plan| == (n - start) / size + 1
            && (plan[|plan| - 1] == [] <==> (n - start) % size == 0)
  {
    PlanFlattens(start, size, n);
    PlanCount(start, size, n);
  }

  lemma {:induction false} PlanFlattens(start: nat, size: nat, n: nat)
    requires size >= 1 && start <= n
    ensures Flatten(Plan(start, size, n)) == Slice(start, n - start, n)
    decreases n - start
  {
    var plan := Plan(start, size, n);
    if start + size > n {
      assert Flatten(plan) == plan[0] + Flatten([]);
    } else {
      var rest := Plan(start + size, size, n);
      PlanFlattens(start + size, size, n);
      assert plan[1..] == rest;
      assert Flatten(plan) == Slice(start, size, n) + Flatten(rest);
      SliceAppend(start, size, n - start - size, n);
    }
  }

  lemma {:induction false} PlanCount(start: nat, size: nat, n: nat)
    requires size >= 1 && start <= n
    ensures var plan := Plan(start, size, n);
            && |plan| == (n - start) / size + 1
            && (plan[|plan| - 1] == [] <==> (n - start) % size == 0)
    decreases n - start
  {
    var plan := Plan(start, size, n);
    var m := n - start;
    if start + size > n {
      DivideSmall(m, size);
    } else {
      var rest := Plan(start + size, size, n);
      PlanCount(start + size, size, n);
      DivideStep(m, size);
      assert plan[|plan| - 1] == rest[|rest| - 1];
    }
  }

  /** A whole submission with a server that lets every chunk through sends
      the planned chunks from the row offset on and returns. */
  lemma SubmitFollowsPlan(projectId: string, filename: string, table: Table, chunkSize: nat,
                          rowOffset: nat, server: (nat, Request) -> Response, fuel: nat)
    requires Prepare(projectId, filename, table).Ok? && AlwaysAdvances(server)
    requires chunkSize >= 1 && rowOffset <= |table.rows|
    requires fuel >= |Plan(rowOffset, chunkSize, |table.rows|)|
    ensures var attempt := Submit(projectId, filename, table, chunkSize, rowOffset, server, fuel);
            attempt.end.Returned? && attempt.sent == Plan(rowOffset, chunkSize, |table.rows|)
  {
    var job := Prepare(projectId, filename, table).value;
    RunFollowsPlan(job, server, FirstWindow(job, chunkSize, rowOffset), fuel);
  }

  /** A row offset past the last row sends nothing and returns empty
      results. */
  lemma OffsetPastEndSendsNothing(projectId: string, filename: string, table: Table, chunkSize: nat,
                                  rowOffset: nat, server: (nat, Request) -> Response, fuel: nat)
    requires Prepare(projectId, filename, table).Ok?
    requires rowOffset > |table.rows|
    ensures Submit(projectId, filename, table, chunkSize, rowOffset, server, fuel) == Attempt([], Returned(NoResults))
  {
  }

  /** One pass with a server that lets every chunk through. */
  lemma AdvanceOnce(job: Job, server: (nat, Request) -> Response, w: Window, fuel: nat) returns (w': Window)
    requires Fits(job, w) && AlwaysAdvances(server)
    requires Continues(job, w) && fuel > 0
    ensures Fits(job, w')
    ensures w'.start == w.start + w.chunkSize && w'.chunkSize == w.chunkSize
    ensures w'.chunk == Slice(w'.start, w'.chunkSize, |job.rows|)
    ensures var rest := RunFrom(job, server, w', fuel - 1);
            RunFrom(job, server, w, fuel) == Run([w] + rest.trail, rest.last, rest.end)
    ensures !Continues(job, w') ==> RunFrom(job, server, w, fuel) == Run([w], w', Returned(w'.results))
  {
    var r := server(w.count, RequestOf(job, w.chunk));
    assert Advances(Classify(r));
    StepAdvances(job, w, r);
    w' := Step(job, w, r).window;
  }

  /** Two adjacent slices make one. */
  lemma SliceAppend(start: nat, a: nat, b: nat, n: nat)
    requires start + a + b <= n
    ensures Slice(start, a, n) + Slice(start + a, b, n) == Slice(start, a + b, n)
  {
    var left, right, whole := Slice(start, a, n), Slice(start + a, b, n), Slice(start, a + b, n);
    if a + b > 0 {
      assert |left| == a && |right| == b && |whole| == a + b;
      forall k | 0 <= k < a + b ensures (left + right)[k] == whole[k] {
        if k < a {
          assert (left + right)[k] == left[k];
        } else {
          assert (left + right)[k] == right[k - a];
        }
      }
    }
  }

  lemma DivideSmall(m: nat, d: nat)
    requires m < d
    ensures m / d == 0 && m % d == m
  {
    MulStrict(d, 0, m / d);
  }

  lemma DivideStep(m: nat, d: nat)
    requires 1 <= d <= m
    ensures m / d == (m - d) / d + 1
    ensures m % d == (m - d) % d
  {
    var q, r := (m - d) / d, (m - d) % d;
    var q', r' := m / d, m % d;
    MulStrict(d, q', q + 1);
    MulStrict(d, q + 1, q');
    assert d * (q + 1) == d * q + d;
  }

  lemma {:induction false} MulStrict(d: nat, a: int, b: int)
    requires d >= 1
    ensures a < b ==> d * a + d <= d * b
    decreases if a < b then b - a else 0
  {
    if a + 1 < b {
      MulStrict(d, a + 1, b);
      assert d * (a + 1) == d * a + d;
    } else if a + 1 == b {
      assert d * b == d * a + d;
    }
  }

  // ---------------------------------------------------------------------
  // The loop as the source writes it.

  /** `for entity in entities: results["succeeded"].append(sid)`. */
  method AppendSucceeded(succeeded: seq<string>, entities: seq<Entity>) returns (r: seq<string>)
    ensures r == succeeded + SubmitterIdsOf(entities)
  {
    r := succeeded;
    for k := 0 to |entities|
      invariant r == succeeded + SubmitterIdsOf(entities[..k])
    {
      assert SubmitterIdsOf(entities[..k + 1]) == SubmitterIdsOf(entities[..k]) + [entities[k].submitterId];
      r := r + [entities[k].submitterId];
    }
    assert entities[..|entities|] == entities;
  }

  /** The loop over the entities of a rejected chunk: valid ones are to be
      sent again, invalid ones are written into `results["invalid"]`. */
  method SortRejected(invalidMap: map<string, string>, entities: seq<Entity>)
    returns (m: map<string, string>, validButFailed: seq<string>, invalid: seq<string>)
    ensures m == RecordInvalid(invalidMap, entities)
    ensures validButFailed == ValidIds(entities)
    ensures invalid == InvalidIds(entities)
  {
    m, validButFailed, invalid := invalidMap, [], [];
    for k := 0 to |entities|
      invariant m == RecordInvalid(invalidMap, entities[..k])
      invariant validButFailed == ValidIds(entities[..k])
      invariant invalid == InvalidIds(entities[..k])
    {
      var entity := entities[k];
      assert entities[..k + 1][..k] == entities[..k];
      if entity.valid {
        validButFailed := validButFailed + [entity.submitterId];
      } else {
        m := m[entity.submitterId := entity.errors];
        invalid := invalid + [entity.submitterId];
      }
    }
    assert entities[..|entities|] == entities;
  }

  /** The handling of one parsed response: the results are updated, an
      overload is noted, and the ids of a rejected chunk are sorted. */
  method ReadResponse(results: Results, count: nat, response: Response, verdict: Verdict)
    returns (results': Results, timeout: bool, validButFailed: seq<string>, invalid: seq<string>)
    requires !verdict.Unparseable?
    ensures results' == Record(results, count, response, verdict)
    ensures timeout <==> verdict.Overload?
    ensures validButFailed == (if verdict.Rejected? then ValidIds(verdict.entities) else [])
    ensures invalid == (if verdict.Rejected? then InvalidIds(verdict.entities) else [])
  {
    results' := results;
    timeout := false;
    validButFailed := [];
    invalid := [];
    match verdict {
      case Overload =>
        results' := results'.(responses := results'.responses + [ReducingChunkSize(response.text)]);
        timeout := true;
      case NoCode(message, errors) =>
        results' := results'.(responses := results'.responses + [ErrorChunk(count, message)],
                              other := results'.other + [errors]);
      case Unhandled =>
        results' := results'.(responses := results'.responses + [UnhandledResponse(response.text)]);
      case Accepted(entities) =>
        results' := results'.(responses := results'.responses + [ChunkSucceeded(count, |entities|)]);
        var succeeded := AppendSucceeded(results'.succeeded, entities);
        results' := results'.(succeeded := succeeded);
      case Rejected(entities) =>
        results' := results'.(responses := results'.responses + [ChunkFailed(count, |entities|)]);
        var m;
        m, validButFailed, invalid := SortRejected(results'.invalid, entities);
        results' := results'.(invalid := m);
      case ServerError =>
        results' := results'.(responses := results'.responses + [InternalServerError(response.text)]);
      case Ignored =>
    }
  }

  lemma RunFromNext(job: Job, server: (nat, Request) -> Response, w: Window, fuel: nat, w': Window)
    requires Fits(job, w) && Continues(job, w) && fuel > 0
    requires Step(job, w, server(w.count, RequestOf(job, w.chunk))) == Next(w')
    ensures Fits(job, w')
    ensures RunFrom(job, server, w, fuel).end == RunFrom(job, server, w', fuel - 1).end
  {
  }

  lemma RunFromRaise(job: Job, server: (nat, Request) -> Response, w: Window, fuel: nat)
    requires Fits(job, w) && Continues(job, w) && fuel > 0
    requires Step(job, w, server(w.count, RequestOf(job, w.chunk))).Raise?
    ensures RunFrom(job, server, w, fuel).end == Raised(Step(job, w, server(w.count, RequestOf(job, w.chunk))).error)
  {
  }

  /** The body of the loop after the request for window `w` was answered
      by `response`: classify, record, and choose the next chunk. */
  method HandleResponse(job: Job, w: Window, response: Response) returns (o: StepOutcome)
    requires Fits(job, w)
    ensures o == Step(job, w, response)
  {
    var start, size, chunk, count := w.start, w.chunkSize, w.chunk, w.count + 1;
    var verdict := Classify(response);
    if verdict.Unparseable? {
      StepRaisesOnUnparseable(job, w, response);
      return Raise(UnparseableResponse);
    }
    var results, timeout, validButFailed, invalid := ReadResponse(w.results, count, response, verdict);
    if |validButFailed| > 0 && |invalid| > 0 {
      chunk := Retain(chunk, job.ids, validButFailed);
      StepRetries(job, w, response);
    } else if |validButFailed| > 0 {
      StepRaisesOnValidOnly(job, w, response);
      return Raise(ValidEntitiesRejected);
    } else if !timeout {
      start := start + size;
      chunk := Slice(start, size, |job.rows|);
      StepAdvances(job, w, response);
    } else if size >= 2 {
      size := size / 2;
      chunk := Slice(start, size, |job.rows|);
      StepOnOverload(job, w, response);
    } else {
      StepOnOverload(job, w, response);
      return Raise(TimingOut);
    }
    return Next(Window(start, size, chunk, count, results));
  }

  /** `submit_file`, sending at most `fuel` requests. */
  method SubmitFile(projectId: string, filename: string, table: Table, chunkSize: nat, rowOffset: nat,
                    server: (nat, Request) -> Response, fuel: nat)
    returns (outcome: Outcome)
    ensures outcome == Submit(projectId, filename, table, chunkSize, rowOffset, server, fuel).end
  {
    var prepared := Prepare(projectId, filename, table);
    if prepared.Err? {
      return Raised(prepared.error);
    }
    outcome := ChunkLoop(prepared.value, chunkSize, rowOffset, server, fuel);
  }

  /** The chunk loop of `submit_file` for a prepared job. */
  method ChunkLoop(job: Job, chunkSize: nat, rowOffset: nat, server: (nat, Request) -> Response, fuel: nat)
    returns (outcome: Outcome)
    requires |job.ids| == |job.rows|
    ensures outcome == RunFrom(job, server, FirstWindow(job, chunkSize, rowOffset), fuel).end
  {
    var n := |job.rows|;
    ghost var goal := RunFrom(job, server, FirstWindow(job, chunkSize, rowOffset), fuel).end;
    var start: nat := rowOffset;
    var size: nat := chunkSize;
    var chunk := Slice(start, size, n);
    var count: nat := 0;
    var results := NoResults;
    ghost var cur := Window(start, size, chunk, count, results);
    ghost var left: nat := fuel;
    while start + |chunk| <= n
      invariant cur == Window(start, size, chunk, count, results)
      invariant count + left == fuel
      invariant Fits(job, cur)
      invariant RunFrom(job, server, cur, left).end == goal
      decreases left
    {
      var w := Window(start, size, chunk, count, results);
      if count == fuel {
        return Unfinished(w);
      }
      var response := server(count, RequestOf(job, chunk));
      var next := HandleResponse(job, w, response);
      match next {
        case Raise(e) =>
          RunFromRaise(job, server, cur, left);
          return Raised(e);
        case Next(w') =>
          RunFromNext(job, server, cur, left, w');
          start, size, chunk, count, results := w'.start, w'.chunkSize, w'.chunk, w'.count, w'.results;
          cur, left := w', left - 1;
      }
    }
    return Returned(results);
  }
}
