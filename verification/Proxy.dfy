/** The forwarding path of the prefill/decode proxy (eldr/serving/proxy.py).

    Requests interleave at every await.  A step is what one request does between two awaits; what
    the workers answer, where they connect and when a client goes away is chosen freely.  Proved
    over every run: the in-flight counters that routing reads are exact, no KV transfer is resolved
    twice, and a transfer is resolved, by a decoder that may have received it or by a release,
    exactly when its prefill answer does not crash the unpacking.  A request goes to a decoder
    exactly when its answer says that the prefill continues, a transfer is released only if no
    decoder can have it, and a request is answered exactly if nothing failed. */
module Proxy {
  import opened Common

  type Url = nat

  type Id = nat

  datatype End = Answered | Raised

  // ----- the prefill answer (eldr/serving/prefill_first.py)

  datatype Json =
    | Null
    | Bool(b: bool)
    | Int(n: int)
    | Float(x: real)
    | Str(s: string)
    | Arr(items: seq<Json>)
    | Obj(fields: map<string, Json>)

  /** dict.get */
  function Get(fields: map<string, Json>, key: string): Json {
    if key in fields then fields[key] else Null
  }

  /** len, which raises TypeError on what has no length. */
  function Length(j: Json): Option<nat> {
    match j
    case Str(s) => Some(|s|)
    case Arr(items) => Some(|items|)
    case Obj(fields) => Some(|fields|)
    case _ => None
  }

  /** Equality with an integer, across Python's numeric types. */
  predicate EqualsInt(j: Json, n: int) {
    match j
    case Bool(b) => n == if b then 1 else 0
    case Int(m) => m == n
    case Float(x) => x == n as real
    case _ => false
  }

  predicate Truthy(j: Json) {
    match j
    case Null => false
    case Bool(b) => b
    case Int(n) => n != 0
    case Float(x) => x != 0.0
    case Str(s) => s != ""
    case Arr(items) => items != []
    case Obj(fields) => fields != map[]
  }

  /** BadGateway is the exception that handle catches; Crash is any other one. */
  datatype Unpacking = Unpacked(continues: bool) | BadGateway | Crash(error: PythonError)

  datatype PythonError = AttributeError | TypeError | KeyError

  function Choices(fields: map<string, Json>): Json {
    if "choices" in fields then fields["choices"] else Arr([])
  }

  /** The last test of unpack_prefill: the token history is consistent. */
  predicate GoodHistory(transfer: map<string, Json>, choice: map<string, Json>) {
    var token, ids := Get(transfer, "prefill_first_token_id"), Get(choice, "token_ids");
    var prompt := Get(choice, "prompt_token_ids");
    && token.Int?
    && ids.Arr? && |ids.items| == 1 && EqualsInt(ids.items[0], token.n)
    && prompt.Arr? && EqualsInt(Get(transfer, "prefill_prompt_tokens"), |prompt.items|)
    && Get(transfer, "prefill_continues").Bool?
  }

  /** unpack_prefill */
  function UnpackPrefill(answer: Json): Unpacking {
    if !answer.Obj? then Crash(AttributeError)
    else
      var transfer, choices := Get(answer.fields, "kv_transfer_params"), Choices(answer.fields);
      if !transfer.Obj? then BadGateway
      else if Length(choices).None? then Crash(TypeError)
      else if Length(choices).value != 1 then BadGateway
      else if choices.Obj? then Crash(KeyError)
      else if choices.Str? || !choices.items[0].Obj? then Crash(AttributeError)
      else if !GoodHistory(transfer.fields, choices.items[0].fields) then BadGateway
      else Unpacked(Get(transfer.fields, "prefill_continues").b)
  }

  /** The answer announces a transfer that waits to be fetched or released. */
  predicate Pending(answer: Json) {
    && answer.Obj?
    && var transfer := Get(answer.fields, "kv_transfer_params");
       transfer.Obj? && Truthy(Get(transfer.fields, "do_remote_prefill"))
  }

  /** The answer says that the completion goes on after the first token. */
  predicate Continues(answer: Json) {
    && answer.Obj?
    && var transfer := Get(answer.fields, "kv_transfer_params");
       transfer.Obj? && Get(transfer.fields, "prefill_continues") == Bool(true)
  }

  /** Line 246 reads `created` from the answer. */
  predicate HasCreated(answer: Json) {
    answer.Obj? && "created" in answer.fields
  }

  lemma UnpackedContinues(answer: Json)
    ensures UnpackPrefill(answer).Unpacked? ==> (UnpackPrefill(answer).continues <==> Continues(answer))
  {
  }

  /** An answer with one choice, whose one token is the announced first token and whose prompt has
      the announced length. */
  predicate Handoff(answer: Json, transfer: map<string, Json>, choice: map<string, Json>, token: int, ids: seq<Json>,
                    prompt: seq<Json>, continues: bool)
  {
    && answer.Obj? && Get(answer.fields, "kv_transfer_params") == Obj(transfer)
    && Get(answer.fields, "choices") == Arr([Obj(choice)])
    && Get(transfer, "prefill_first_token_id") == Int(token)
    && Get(choice, "token_ids") == Arr(ids) && |ids| == 1 && EqualsInt(ids[0], token)
    && Get(choice, "prompt_token_ids") == Arr(prompt) && EqualsInt(Get(transfer, "prefill_prompt_tokens"), |prompt|)
    && Get(transfer, "prefill_continues") == Bool(continues)
  }

  /** Such answers are unpacked. */
  lemma HandoffUnpacked(answer: Json, transfer: map<string, Json>, choice: map<string, Json>, token: int,
                        ids: seq<Json>, prompt: seq<Json>, continues: bool)
    requires Handoff(answer, transfer, choice, token, ids, prompt, continues)
    ensures UnpackPrefill(answer) == Unpacked(continues)
  {
  }

  /** And no others. */
  lemma UnpackedHandoff(answer: Json)
    returns (transfer: map<string, Json>, choice: map<string, Json>, token: int, ids: seq<Json>, prompt: seq<Json>)
    requires UnpackPrefill(answer).Unpacked?
    ensures Handoff(answer, transfer, choice, token, ids, prompt, UnpackPrefill(answer).continues)
  {
    transfer := Get(answer.fields, "kv_transfer_params").fields;
    var items := Choices(answer.fields).items;
    choice := items[0].fields;
    assert items == [Obj(choice)];
    token := Get(transfer, "prefill_first_token_id").n;
    ids, prompt := Get(choice, "token_ids").items, Get(choice, "prompt_token_ids").items;
  }

  /** The proxy holds a transfer after this answer. */
  predicate Carries(answer: Json) {
    UnpackPrefill(answer).Unpacked? || Pending(answer)
  }

  /** The answers whose transfer nobody resolves: it is pending, and `choices` has no length, or
      its only element cannot be read as a dictionary at index 0. */
  predicate Unresolvable(answer: Json) {
    && Pending(answer)
    && var choices := Choices(answer.fields);
       || choices.Null? || choices.Bool? || choices.Int? || choices.Float?
       || (Length(choices) == Some(1) && !(choices.Arr? && choices.items[0].Obj?))
  }

  /** They are the pending ones on which unpacking raises something that handle does not catch. */
  lemma UnresolvableIff(answer: Json)
    ensures Unresolvable(answer) <==> Pending(answer) && UnpackPrefill(answer).Crash?
  {
    if Pending(answer) {
      var choices := Choices(answer.fields);
      match choices {
        case Arr(items) => assert Length(choices) == Some(|items|);
        case Str(s) => assert Length(choices) == Some(|s|);
        case Obj(fields) => assert Length(choices) == Some(|fields|);
        case _ =>
      }
    }
  }

  /** Where a request awaits. */
  datatype Phase =
    | Prefilling(prefiller: Url)                  // the prefill response
    | Sending(continues: bool)                    // delivery of the first token
    | Decoding(decoder: Url)                      // the decode response
    | Reporting(at: Decoder, submitted: bool)     // delivery of the error event
    | Releasing(end: End)                         // the answer to the release call
    | Finished(end: End)

  datatype Decoder = NoDecoder | Chosen(url: Url)

  /** A request: whether it streams, the answer of its prefiller, whether the first token was
      delivered, whether its stream was closed as complete, whether a decoder may have its
      transfer, through which decoders a release was attempted, and its past. */
  datatype Request = Request(stream: bool, phase: Phase, answer: Option<Json>, sent: bool, eof: bool,
                             handed: bool, releases: seq<Url>, past: Past)
  {
    predicate Transfer() { answer.Some? && Carries(answer.value) }

    predicate Created() { answer.Some? && HasCreated(answer.value) }
  }

  /** What the events of a request tell: the decoder chosen for it, whether it was posted there,
      whether that decoder could not be reached, and whether anything failed. */
  datatype Past = Past(chosen: Decoder, posted: bool, refused: bool, failed: bool)

  const NO_PAST := Past(NoDecoder, false, false, false)

  datatype State = State(prefillInflight: map<Url, int>, decodeInflight: map<Url, int>, requests: map<Id, Request>)

  /** What happens after the first token: the training capture fails, no decoder can be chosen,
      or one is. */
  datatype Choice = NoChoice | Choose(url: Url)

  datatype Event =
    | Arrive(id: Id, stream: bool, prefiller: Url)
    | PrefillFailed(id: Id)
    | Answer(id: Id, answer: Json, choice: Choice)
    | Sent(id: Id, choice: Choice, eofFails: bool)
    | SendFailed(id: Id)
    | DecodeDone(id: Id)
    | DecodeFailed(id: Id, unconnected: bool)
    | Reported(id: Id)
    | Cancelled(id: Id)
    | Released(id: Id, fails: bool)

  // ----- what the events tell

  /** After the first token: no decoder is found, the answer lacks `created`, or closing the
      finished stream fails. */
  predicate Stuck(answer: Json, choice: Choice, eofFails: bool) {
    choice == NoChoice || if Continues(answer) then !HasCreated(answer) else eofFails
  }

  /** The event is, or causes, a failure of the request. */
  predicate Fails(r: Request, ev: Event) {
    match ev
    case Arrive(_, _, _) => false
    case PrefillFailed(_) => true
    case Answer(_, answer, choice) => !UnpackPrefill(answer).Unpacked? || (!r.stream && Stuck(answer, choice, false))
    case Sent(_, choice, eofFails) => r.answer.Some? && Stuck(r.answer.value, choice, eofFails)
    case SendFailed(_) => true
    case DecodeDone(_) => false
    case DecodeFailed(_, _) => true
    case Reported(_) => false
    case Cancelled(_) => true
    case Released(_, fails) => fails
  }

  /** The decoder chosen at the event. */
  function Picks(r: Request, ev: Event): Decoder {
    match ev
    case Answer(_, answer, Choose(url)) =>
      if !r.stream && UnpackPrefill(answer).Unpacked? && Continues(answer) then Chosen(url) else NoDecoder
    case Sent(_, Choose(url), _) => if r.answer.Some? && Continues(r.answer.value) then Chosen(url) else NoDecoder
    case _ => NoDecoder
  }

  /** The past of r after the event that made it r'. */
  function Noted(r: Request, ev: Event, r': Request): Request {
    r'.(past := Past(if Picks(r, ev).Chosen? then Picks(r, ev) else r.past.chosen,
                     r.past.posted || r'.phase.Decoding?,
                     r.past.refused || (ev.DecodeFailed? && ev.unconnected),
                     r.past.failed || Fails(r, ev)))
  }

  // ----- the pieces of handle

  function Add(m: map<Url, int>, u: Url, n: int): map<Url, int>
    requires u in m
  {
    m[u := m[u] + n]
  }

  /** The decoder a release goes through: another one than the request's, if there is one. */
  function ReleaseDecoder(decode: seq<Url>, d: Decoder): Url
    requires decode != []
  {
    FirstOther(decode, d, decode[0])
  }

  function FirstOther(urls: seq<Url>, d: Decoder, default: Url): Url {
    if urls == [] then default
    else if d != Chosen(urls[0]) then urls[0]
    else FirstOther(urls[1..], d, default)
  }

  /** The finally block: the decoder is no longer in use, and what was not submitted is released. */
  function Finalize(decode: seq<Url>, s: State, id: Id, r: Request, d: Decoder, submitted: bool, end: End): (s': State)
    requires decode != [] && (d.Chosen? ==> d.url in s.decodeInflight)
    ensures id in s'.requests
  {
    var inflight := if d.Chosen? then Add(s.decodeInflight, d.url, -1) else s.decodeInflight;
    var r' := if submitted then r.(phase := Finished(end), handed := true)
              else r.(phase := Releasing(end), releases := r.releases + [ReleaseDecoder(decode, d)]);
    State(s.prefillInflight, inflight, s.requests[id := r'])
  }

  /** After the first token: a finished prefill ends here, otherwise a decoder is chosen, and the
      request goes to it unless the answer lacks `created`. */
  function Proceed(decode: seq<Url>, s: State, id: Id, r: Request, continues: bool, choice: Choice,
                   eofFails: bool): (s': State)
    requires decode != [] && (choice.Choose? ==> choice.url in s.decodeInflight)
    ensures id in s'.requests
  {
    if choice == NoChoice then
      if r.stream then
        State(s.prefillInflight, s.decodeInflight, s.requests[id := r.(phase := Reporting(NoDecoder, false))])
      else Finalize(decode, s, id, r, NoDecoder, false, Raised)
    else if !continues then
      if r.stream && eofFails then
        State(s.prefillInflight, s.decodeInflight, s.requests[id := r.(phase := Reporting(NoDecoder, false))])
      else Finalize(decode, s, id, r.(eof := r.stream), NoDecoder, false, Answered)
    else
      var s1 := State(s.prefillInflight, Add(s.decodeInflight, choice.url, 1),
                      s.requests[id := r.(phase := Decoding(choice.url))]);
      if r.Created() then s1
      else if r.stream then
        State(s1.prefillInflight, s1.decodeInflight,
              s1.requests[id := r.(phase := Reporting(Chosen(choice.url), false))])
      else Finalize(decode, s1, id, r, Chosen(choice.url), false, Raised)
  }

  ghost predicate Next(prefill: seq<Url>, decode: seq<Url>, s: State, ev: Event, s': State)
    requires decode != []
    requires (forall u :: u in s.prefillInflight <==> u in prefill) &&
              (forall u :: u in s.decodeInflight <==> u in decode)
  {
    var id := ev.id;
    if ev.Arrive? then
      && id !in s.requests && ev.prefiller in prefill
      && s' == State(Add(s.prefillInflight, ev.prefiller, 1), s.decodeInflight,
                     s.requests[id := NewRequest(ev.stream, ev.prefiller)])
    else
      && id in s.requests && Enabled(s, ev)
      && s' == Note(s, ev, Act(decode, s, ev))
  }

  function NewRequest(stream: bool, prefiller: Url): Request {
    Request(stream, Prefilling(prefiller), None, false, false, false, [], NO_PAST)
  }

  /** The state after an event, with the past of its request brought up to date. */
  function Note(s: State, ev: Event, s': State): State {
    if ev.id in s.requests && ev.id in s'.requests
    then s'.(requests := s'.requests[ev.id := Noted(s.requests[ev.id], ev, s'.requests[ev.id])])
    else s'
  }

  /** The awaits at which an event can happen; urls come from the fixed worker groups. */
  ghost predicate Enabled(s: State, ev: Event)
    requires ev.id in s.requests && !ev.Arrive?
  {
    var p := s.requests[ev.id].phase;
    match ev
    case PrefillFailed(_) => p.Prefilling? && p.prefiller in s.prefillInflight
    case Answer(_, _, c) =>
      p.Prefilling? && p.prefiller in s.prefillInflight && (c.Choose? ==> c.url in s.decodeInflight)
    case Sent(_, c, _) => p.Sending? && (c.Choose? ==> c.url in s.decodeInflight)
    case SendFailed(_) => p.Sending?
    case DecodeDone(_) => p.Decoding? && p.decoder in s.decodeInflight
    case DecodeFailed(_, _) => p.Decoding? && p.decoder in s.decodeInflight
    case Reported(_) => p.Reporting? && (p.at.Chosen? ==> p.at.url in s.decodeInflight)
    case Cancelled(_) =>
      || (p.Prefilling? && p.prefiller in s.prefillInflight)
      || p.Sending?
      || (p.Decoding? && p.decoder in s.decodeInflight)
      || (p.Reporting? && (p.at.Chosen? ==> p.at.url in s.decodeInflight))
      || p.Releasing?
    case Released(_, _) => p.Releasing?
  }

  function Act(decode: seq<Url>, s: State, ev: Event): State
    requires decode != [] && ev.id in s.requests && !ev.Arrive? && Enabled(s, ev)
  {
    var id := ev.id;
    var r := s.requests[id];
    var p := r.phase;
    match ev
    case PrefillFailed(_) => PrefillEnds(s, id, r.(phase := Finished(Raised)))
    case Answer(_, answer, choice) =>
      var r1 := r.(answer := Some(answer));
      (match UnpackPrefill(answer)
       case Unpacked(continues) =>
         var r2 := r1.(phase := Sending(continues));
         var s1 := PrefillEnds(s, id, r2);
         if r.stream then s1 else Proceed(decode, s1, id, r2, continues, choice, false)
       case BadGateway =>
         PrefillEnds(s, id, if Pending(answer) then r1.(phase := Releasing(Raised), releases := [decode[0]])
                            else r1.(phase := Finished(Raised)))
       case Crash(_) => PrefillEnds(s, id, r1.(phase := Finished(Raised))))
    case Sent(_, choice, eofFails) => Proceed(decode, s, id, r.(sent := true), p.continues, choice, eofFails)
    case SendFailed(_) =>
      State(s.prefillInflight, s.decodeInflight, s.requests[id := r.(phase := Reporting(NoDecoder, false))])
    case DecodeDone(_) => Finalize(decode, s, id, r.(eof := r.stream), Chosen(p.decoder), true, Answered)
    case DecodeFailed(_, unconnected) =>
      if r.stream then
        State(s.prefillInflight, s.decodeInflight,
              s.requests[id := r.(phase := Reporting(Chosen(p.decoder), !unconnected))])
      else Finalize(decode, s, id, r, Chosen(p.decoder), !unconnected, Raised)
    case Reported(_) => Finalize(decode, s, id, r, p.at, p.submitted, Raised)
    case Cancelled(_) =>
      if p.Prefilling? then PrefillEnds(s, id, r.(phase := Finished(Raised)))
      else if p.Sending? then Finalize(decode, s, id, r, NoDecoder, false, Raised)
      else if p.Decoding? then Finalize(decode, s, id, r, Chosen(p.decoder), true, Raised)
      else if p.Reporting? then Finalize(decode, s, id, r, p.at, p.submitted, Raised)
      else State(s.prefillInflight, s.decodeInflight, s.requests[id := r.(phase := Finished(Raised))])
    case Released(_, fails) =>
      State(s.prefillInflight, s.decodeInflight,
            s.requests[id := r.(phase := Finished(if fails then Raised else p.end))])
  }

  function PrefillEnds(s: State, id: Id, r: Request): State
    requires id in s.requests && s.requests[id].phase.Prefilling?
    requires s.requests[id].phase.prefiller in s.prefillInflight
  {
    State(Add(s.prefillInflight, s.requests[id].phase.prefiller, -1), s.decodeInflight, s.requests[id := r])
  }

  // ----- what holds between steps

  predicate OnPrefiller(r: Request, u: Url) { r.phase == Prefilling(u) }

  predicate OnDecoder(r: Request, u: Url) {
    r.phase == Decoding(u) || (r.phase.Reporting? && r.phase.at == Chosen(u))
  }

  ghost function AtPrefiller(m: map<Id, Request>, u: Url): set<Id> {
    set id | id in m && OnPrefiller(m[id], u)
  }

  ghost function AtDecoder(m: map<Id, Request>, u: Url): set<Id> {
    set id | id in m && OnDecoder(m[id], u)
  }

  /** A transfer is released at most once; when a request is over, its transfer went to a decoder
      or was released, and not both, exactly if its answer can be resolved. */
  ghost predicate TransferOk(r: Request) {
    match r.phase
    case Prefilling(_) => r.answer == None && !r.handed && r.releases == []
    case Sending(_) => HasHandoff(r) && !r.handed && r.releases == []
    case Decoding(_) => HasHandoff(r) && !r.handed && r.releases == []
    case Reporting(_, _) => HasHandoff(r) && !r.handed && r.releases == []
    case Releasing(_) => r.Transfer() && !Unresolvable(r.answer.value) && !r.handed && |r.releases| == 1
    case Finished(_) =>
      && |r.releases| <= 1
      && (r.Transfer() && !Unresolvable(r.answer.value) ==> (r.handed <==> r.releases == []))
      && (r.Transfer() && Unresolvable(r.answer.value) ==> !r.handed && r.releases == [])
      && (!r.Transfer() ==> !r.handed && r.releases == [])
  }

  ghost predicate HasHandoff(r: Request) {
    r.answer.Some? && UnpackPrefill(r.answer.value).Unpacked?
  }

  /** A stream reaches a decoder only after its first token was delivered, and is closed as
      complete only when it was answered. */
  ghost predicate StreamOk(r: Request) {
    && (r.stream && (r.phase.Decoding? || (r.phase.Reporting? && r.phase.submitted) || r.handed) ==> r.sent)
    && (r.eof ==> r.stream && (r.phase.Finished? || (r.phase.Releasing? && r.phase.end == Answered)))
  }

  ghost predicate Inv(prefill: seq<Url>, decode: seq<Url>, s: State) {
    && (forall u :: u in s.prefillInflight <==> u in prefill)
    && (forall u :: u in s.decodeInflight <==> u in decode)
    && (forall u :: u in s.prefillInflight ==> s.prefillInflight[u] == |AtPrefiller(s.requests, u)|)
    && (forall u :: u in s.decodeInflight ==> s.decodeInflight[u] == |AtDecoder(s.requests, u)|)
    && (forall id :: id in s.requests ==> TransferOk(s.requests[id]) && StreamOk(s.requests[id]))
  }

  /** A decoder got the request exactly when the answer continues and the decoder could be
      reached; what went to a decoder is never released, and a release goes through the first
      other decoder.  A request that is over was answered exactly if nothing failed. */
  ghost predicate OutcomeOk(decode: seq<Url>, r: Request) {
    && PastOk(r)
    && (r.handed ==> r.past.posted && !r.past.refused)
    && (r.releases != [] ==> (r.past.posted ==> r.past.refused) && IsDetour(decode, r.past.chosen, r.releases[0]))
    && (r.eof ==> r.stream && HasHandoff(r) && (r.handed <==> Continues(r.answer.value)))
    && match r.phase
       case Prefilling(_) => r.past == NO_PAST && !r.eof
       case Sending(continues) =>
         r.past == NO_PAST && r.stream && !r.eof && HasHandoff(r) && (continues <==> Continues(r.answer.value))
       case Decoding(u) => r.past == Past(Chosen(u), true, false, false) && !r.eof
       case Reporting(at, submitted) =>
         r.stream && !r.eof && r.past.failed && at == r.past.chosen && (submitted <==> r.past.posted && !r.past.refused)
       case Releasing(end) => Ended(r, end)
       case Finished(end) => Ended(r, end)
  }

  ghost predicate PastOk(r: Request) {
    && (r.past.chosen.Chosen? ==> HasHandoff(r) && Continues(r.answer.value))
    && (r.past.posted ==> r.past.chosen.Chosen? && r.Created())
    && (r.past.refused ==> r.past.posted)
  }

  ghost predicate Ended(r: Request, end: End) {
    && (end == Answered <==> !r.past.failed)
    && (end == Answered ==> HasHandoff(r) && (r.handed <==> Continues(r.answer.value)) && r.eof == r.stream)
  }

  /** u is the first decoder other than d, or the first of all if there is no other. */
  ghost predicate IsDetour(decode: seq<Url>, d: Decoder, u: Url) {
    || (exists k :: && 0 <= k < |decode| && u == decode[k] && d != Chosen(u)
                    && forall j :: 0 <= j < k ==> d == Chosen(decode[j]))
    || (decode != [] && u == decode[0] && forall j :: 0 <= j < |decode| ==> d == Chosen(decode[j]))
  }

  // ----- every step keeps it

  function One(b: bool): int { if b then 1 else 0 }

  ghost function WasOnPrefiller(s: State, id: Id, u: Url): bool {
    id in s.requests && OnPrefiller(s.requests[id], u)
  }

  ghost function WasOnDecoder(s: State, id: Id, u: Url): bool {
    id in s.requests && OnDecoder(s.requests[id], u)
  }

  /** Only one request changes, and the counters follow it. */
  ghost predicate Follows(s: State, s': State, id: Id, r: Request) {
    && s'.requests == s.requests[id := r]
    && s'.prefillInflight.Keys == s.prefillInflight.Keys && s'.decodeInflight.Keys == s.decodeInflight.Keys
    && (forall u :: u in s.prefillInflight ==>
          s'.prefillInflight[u] == s.prefillInflight[u] + One(OnPrefiller(r, u)) - One(WasOnPrefiller(s, id, u)))
    && (forall u :: u in s.decodeInflight ==>
          s'.decodeInflight[u] == s.decodeInflight[u] + One(OnDecoder(r, u)) - One(WasOnDecoder(s, id, u)))
  }

  lemma CountFollows(before: set<Id>, after: set<Id>, id: Id)
    requires forall x :: x != id ==> (x in before <==> x in after)
    ensures |after| == |before| + One(id in after) - One(id in before)
  {
    if id in before {
      if id in after {
        assert after == before;
      } else {
        assert after == before - {id};
      }
    } else if id in after {
      assert after == before + {id};
    } else {
      assert after == before;
    }
  }

  lemma FollowsKeeps(prefill: seq<Url>, decode: seq<Url>, s: State, s': State, id: Id, r: Request)
    requires Inv(prefill, decode, s) && Follows(s, s', id, r) && TransferOk(r) && StreamOk(r)
    ensures Inv(prefill, decode, s')
  {
    hide TransferOk, StreamOk, OnPrefiller, OnDecoder;
    forall u | u in s'.prefillInflight ensures s'.prefillInflight[u] == |AtPrefiller(s'.requests, u)| {
      CountFollows(AtPrefiller(s.requests, u), AtPrefiller(s'.requests, u), id);
    }
    forall u | u in s'.decodeInflight ensures s'.decodeInflight[u] == |AtDecoder(s'.requests, u)| {
      CountFollows(AtDecoder(s.requests, u), AtDecoder(s'.requests, u), id);
    }
  }

  /** The finally block follows the request. */
  lemma FinalizeFollows(decode: seq<Url>, s: State, id: Id, r: Request, d: Decoder, submitted: bool, end: End)
    requires decode != [] && id in s.requests && (d.Chosen? ==> d.url in s.decodeInflight)
    requires forall u :: !OnPrefiller(s.requests[id], u)
    requires forall u :: OnDecoder(s.requests[id], u) <==> d == Chosen(u)
    requires HasHandoff(r) && !r.handed && r.releases == [] && (r.eof ==> r.stream && end == Answered)
    requires submitted && r.stream ==> r.sent
    ensures var s' := Finalize(decode, s, id, r, d, submitted, end);
            id in s'.requests && Follows(s, s', id, s'.requests[id]) && TransferOk(s'.requests[id]) &&
                StreamOk(s'.requests[id])
  {
    hide TransferOk, StreamOk, HasHandoff, ReleaseDecoder;
    FinalizeOk(decode, s, id, r, d, submitted, end);
    var s' := Finalize(decode, s, id, r, d, submitted, end);
    assert forall u :: !OnPrefiller(s'.requests[id], u) && !OnDecoder(s'.requests[id], u);
  }

  lemma FinalizeOk(decode: seq<Url>, s: State, id: Id, r: Request, d: Decoder, submitted: bool, end: End)
    requires decode != [] && (d.Chosen? ==> d.url in s.decodeInflight)
    requires HasHandoff(r) && !r.handed && r.releases == [] && (r.eof ==> r.stream && end == Answered)
    requires submitted && r.stream ==> r.sent
    ensures var r' := Finalize(decode, s, id, r, d, submitted, end).requests[id]; TransferOk(r') && StreamOk(r')
  {
    hide UnpackPrefill, Unresolvable, Pending, Add;
    HandoffResolvable(r);
  }

  lemma HandoffResolvable(r: Request)
    requires HasHandoff(r)
    ensures r.Transfer() && !Unresolvable(r.answer.value)
  {
    UnresolvableIff(r.answer.value);
  }

  /** Two steps of one request in a row. */
  lemma FollowsTwice(s: State, s1: State, s2: State, id: Id, r1: Request, r2: Request)
    requires Follows(s, s1, id, r1) && Follows(s1, s2, id, r2)
    ensures Follows(s, s2, id, r2)
  {
    assert s.requests[id := r1][id := r2] == s.requests[id := r2];
  }

  lemma ProceedFollows(decode: seq<Url>, s: State, id: Id, r: Request, continues: bool, choice: Choice, eofFails: bool)
    requires decode != [] && id in s.requests && (choice.Choose? ==> choice.url in s.decodeInflight)
    requires forall u :: !OnPrefiller(s.requests[id], u) && !OnDecoder(s.requests[id], u)
    requires HasHandoff(r) && !r.handed && r.releases == [] && !r.eof && (r.stream ==> r.sent)
    ensures var s' := Proceed(decode, s, id, r, continues, choice, eofFails);
            id in s'.requests && Follows(s, s', id, s'.requests[id]) && TransferOk(s'.requests[id]) &&
                StreamOk(s'.requests[id])
  {
    hide Finalize, Follows, UnpackPrefill;
    var s' := Proceed(decode, s, id, r, continues, choice, eofFails);
    if choice == NoChoice && !r.stream {
      FinalizeFollows(decode, s, id, r, NoDecoder, false, Raised);
    } else if choice != NoChoice && !continues && !(r.stream && eofFails) {
      FinalizeFollows(decode, s, id, r.(eof := r.stream), NoDecoder, false, Answered);
    } else if choice != NoChoice && continues && !r.Created() && !r.stream {
      var r1 := r.(phase := Decoding(choice.url));
      var s1 := State(s.prefillInflight, Add(s.decodeInflight, choice.url, 1), s.requests[id := r1]);
      SimpleFollows(s, s1, id);
      FinalizeFollows(decode, s1, id, r, Chosen(choice.url), false, Raised);
      FollowsTwice(s, s1, s', id, r1, s'.requests[id]);
    } else {
      SimpleFollows(s, s', id);
    }
  }

  /** A step that changes one request and at most the counter of the decoder it starts to use. */
  lemma SimpleFollows(s: State, s': State, id: Id)
    requires id in s'.requests && s'.requests == s.requests[id := s'.requests[id]]
    requires s'.prefillInflight == s.prefillInflight
    requires forall u :: !WasOnPrefiller(s, id, u) && !WasOnDecoder(s, id, u) && !OnPrefiller(s'.requests[id], u)
    requires s'.decodeInflight.Keys == s.decodeInflight.Keys
    requires forall u :: u in s.decodeInflight ==>
               s'.decodeInflight[u] == s.decodeInflight[u] + One(OnDecoder(s'.requests[id], u))
    ensures Follows(s, s', id, s'.requests[id])
  {
  }

  lemma PrefillEndsFollows(s: State, id: Id, r: Request)
    requires id in s.requests && s.requests[id].phase.Prefilling?
    requires s.requests[id].phase.prefiller in s.prefillInflight
    requires forall u :: !OnPrefiller(r, u) && !OnDecoder(r, u)
    ensures Follows(s, PrefillEnds(s, id, r), id, r)
  {
  }

  lemma PrefillActKeeps(prefill: seq<Url>, decode: seq<Url>, s: State, ev: Event)
    requires decode != [] && Inv(prefill, decode, s) && ev.id in s.requests && !ev.Arrive? && Enabled(s, ev)
    requires s.requests[ev.id].phase.Prefilling?
    ensures Inv(prefill, decode, Act(decode, s, ev))
  {
    hide Inv, Follows, Proceed, PrefillEnds, UnpackPrefill, Unresolvable, Pending;
    var id := ev.id;
    var r := s.requests[id];
    RequestOk(prefill, decode, s, id);
    if ev.Answer? && UnpackPrefill(ev.answer).Unpacked? {
      var continues := UnpackPrefill(ev.answer).continues;
      var r' := r.(answer := Some(ev.answer), phase := Sending(continues));
      var s1 := PrefillEnds(s, id, r');
      PrefillEndsFollows(s, id, r');
      FollowsKeeps(prefill, decode, s, s1, id, r');
      if !r.stream {
        ProceedFollows(decode, s1, id, r', continues, ev.choice, false);
        var s2 := Proceed(decode, s1, id, r', continues, ev.choice, false);
        FollowsKeeps(prefill, decode, s1, s2, id, s2.requests[id]);
      }
    } else {
      var r1 := if ev.Answer? then r.(answer := Some(ev.answer)) else r;
      var r' := if ev.Answer? && UnpackPrefill(ev.answer).BadGateway? && Pending(ev.answer)
                then r1.(phase := Releasing(Raised), releases := [decode[0]])
                else r1.(phase := Finished(Raised));
      if ev.Answer? {
        UnresolvableIff(ev.answer);
      }
      PrefillEndsFollows(s, id, r');
      FollowsKeeps(prefill, decode, s, PrefillEnds(s, id, r'), id, r');
    }
  }

  lemma RequestOk(prefill: seq<Url>, decode: seq<Url>, s: State, id: Id)
    requires Inv(prefill, decode, s) && id in s.requests
    ensures TransferOk(s.requests[id]) && StreamOk(s.requests[id])
  {
  }

  lemma LaterActKeeps(prefill: seq<Url>, decode: seq<Url>, s: State, ev: Event)
    requires decode != [] && Inv(prefill, decode, s) && ev.id in s.requests && !ev.Arrive? && Enabled(s, ev)
    requires !s.requests[ev.id].phase.Prefilling?
    ensures Inv(prefill, decode, Act(decode, s, ev))
  {
    hide Inv, Follows, Proceed, Finalize, UnpackPrefill, Unresolvable, Pending;
    var id := ev.id;
    var r := s.requests[id];
    var p := r.phase;
    var s' := Act(decode, s, ev);
    RequestOk(prefill, decode, s, id);
    match ev {
      case Sent(_, choice, eofFails) =>
        ProceedFollows(decode, s, id, r.(sent := true), p.continues, choice, eofFails);
      case SendFailed(_) => SimpleFollows(s, s', id);
      case DecodeDone(_) =>
        FinalizeFollows(decode, s, id, r.(eof := r.stream), Chosen(p.decoder), true, Answered);
      case DecodeFailed(_, unconnected) =>
        if r.stream {
          StaysOnDecoder(s, s', id);
        } else {
          FinalizeFollows(decode, s, id, r, Chosen(p.decoder), !unconnected, Raised);
        }
      case Reported(_) => FinalizeFollows(decode, s, id, r, p.at, p.submitted, Raised);
      case Cancelled(_) =>
        if p.Sending? {
          FinalizeFollows(decode, s, id, r, NoDecoder, false, Raised);
        } else if p.Decoding? {
          FinalizeFollows(decode, s, id, r, Chosen(p.decoder), true, Raised);
        } else if p.Reporting? {
          FinalizeFollows(decode, s, id, r, p.at, p.submitted, Raised);
        } else {
          SimpleFollows(s, s', id);
        }
      case Released(_, _) => SimpleFollows(s, s', id);
    }
    FollowsKeeps(prefill, decode, s, s', id, s'.requests[id]);
  }

  /** Reporting an error of a decode keeps its decoder in use. */
  lemma StaysOnDecoder(s: State, s': State, id: Id)
    requires id in s.requests && id in s'.requests && s'.requests == s.requests[id := s'.requests[id]]
    requires s'.prefillInflight == s.prefillInflight && s'.decodeInflight == s.decodeInflight
    requires forall u :: !OnPrefiller(s.requests[id], u) && !OnPrefiller(s'.requests[id], u)
    requires forall u :: OnDecoder(s.requests[id], u) <==> OnDecoder(s'.requests[id], u)
    ensures Follows(s, s', id, s'.requests[id])
  {
  }

  lemma NewRequestOk(stream: bool, u: Url)
    ensures var r := NewRequest(stream, u); TransferOk(r) && StreamOk(r)
  {
  }

  lemma ArriveKeeps(prefill: seq<Url>, decode: seq<Url>, s: State, ev: Event, s': State)
    requires decode != [] && Inv(prefill, decode, s) && ev.Arrive? && Next(prefill, decode, s, ev, s')
    ensures Inv(prefill, decode, s')
  {
    hide AtPrefiller, AtDecoder, TransferOk, StreamOk;
    assert ev.prefiller in s.prefillInflight;
    assert Follows(s, s', ev.id, s'.requests[ev.id]);
    NewRequestOk(ev.stream, ev.prefiller);
    FollowsKeeps(prefill, decode, s, s', ev.id, s'.requests[ev.id]);
  }

  lemma NextKeeps(prefill: seq<Url>, decode: seq<Url>, s: State, ev: Event, s': State)
    requires decode != [] && Inv(prefill, decode, s) && Next(prefill, decode, s, ev, s')
    ensures Inv(prefill, decode, s')
  {
    if ev.Arrive? {
      ArriveKeeps(prefill, decode, s, ev, s');
    } else {
      hide Act, Enabled, TransferOk, StreamOk, Inv, Note;
      assert Inv(prefill, decode, Act(decode, s, ev)) by {
        if s.requests[ev.id].phase.Prefilling? {
          PrefillActKeeps(prefill, decode, s, ev);
        } else {
          LaterActKeeps(prefill, decode, s, ev);
        }
      }
      NoteKeeps(prefill, decode, s, ev, Act(decode, s, ev));
    }
  }

  /** The past matters to nothing else. */
  lemma NoteKeeps(prefill: seq<Url>, decode: seq<Url>, s: State, ev: Event, s1: State)
    requires Inv(prefill, decode, s1)
    ensures Inv(prefill, decode, Note(s, ev, s1))
  {
    hide Inv, TransferOk, StreamOk, Noted;
    var id := ev.id;
    if id in s.requests && id in s1.requests {
      var r' := Noted(s.requests[id], ev, s1.requests[id]);
      NotedSame(s.requests[id], ev, s1.requests[id]);
      RequestOk(prefill, decode, s1, id);
      assert forall u :: OnPrefiller(r', u) == WasOnPrefiller(s1, id, u) && OnDecoder(r', u) == WasOnDecoder(s1, id, u);
      FollowsKeeps(prefill, decode, s1, Note(s, ev, s1), id, r');
    }
  }

  lemma NotedSame(r: Request, ev: Event, r1: Request)
    ensures var r' := Noted(r, ev, r1); r'.phase == r1.phase && r' == r1.(past := r'.past)
    ensures var r' := Noted(r, ev, r1);
            (TransferOk(r1) ==> TransferOk(r')) && (StreamOk(r1) ==> StreamOk(r'))
  {
    hide UnpackPrefill, Unresolvable, Carries, Picks, Fails;
  }

  // ----- how requests end

  ghost predicate Outcomes(decode: seq<Url>, s: State) {
    forall id :: id in s.requests ==> OutcomeOk(decode, s.requests[id])
  }

  lemma {:induction false} FirstOtherIs(urls: seq<Url>, d: Decoder, default: Url)
    ensures || (exists k :: 0 <= k < |urls| && FirstOther(urls, d, default) == urls[k] && d != Chosen(urls[k])
                         && forall j :: 0 <= j < k ==> d == Chosen(urls[j]))
            || (FirstOther(urls, d, default) == default && forall j :: 0 <= j < |urls| ==> d == Chosen(urls[j]))
  {
    if urls != [] && d == Chosen(urls[0]) {
      var rest := urls[1..];
      FirstOtherIs(rest, d, default);
      if k :| 0 <= k < |rest| && FirstOther(rest, d, default) == rest[k] && d != Chosen(rest[k])
              && forall j :: 0 <= j < k ==> d == Chosen(rest[j])
      {
        assert urls[k + 1] == rest[k];
        forall j | 0 <= j < k + 1 ensures d == Chosen(urls[j]) {
          assert j > 0 ==> urls[j] == rest[j - 1];
        }
      } else {
        forall j | 0 <= j < |urls| ensures d == Chosen(urls[j]) {
          assert j > 0 ==> urls[j] == rest[j - 1];
        }
      }
    }
  }

  lemma ReleaseIsDetour(decode: seq<Url>, d: Decoder)
    requires decode != []
    ensures IsDetour(decode, d, ReleaseDecoder(decode, d))
  {
    FirstOtherIs(decode, d, decode[0]);
  }

  /** The finally block: released exactly if not submitted. */
  lemma FinalizeOutcome(decode: seq<Url>, s: State, id: Id, r: Request, d: Decoder, submitted: bool, end: End,
                        past: Past)
    requires decode != [] && (d.Chosen? ==> d.url in s.decodeInflight)
    requires HasHandoff(r) && !r.handed && r.releases == [] && PastOk(r.(past := past)) && d == past.chosen
    requires submitted <==> past.posted && !past.refused
    requires end == Answered <==> !past.failed
    requires end == Answered ==> (submitted <==> Continues(r.answer.value))
    requires r.eof == (end == Answered && r.stream)
    ensures OutcomeOk(decode, Finalize(decode, s, id, r, d, submitted, end).requests[id].(past := past))
  {
    hide UnpackPrefill, Continues, HasCreated, IsDetour, ReleaseDecoder;
    ReleaseIsDetour(decode, d);
  }


  /** The past that `Proceed` leaves. */
  function PastAfter(answer: Json, r': Request, choice: Choice, eofFails: bool): Past {
    Past(if choice.Choose? && Continues(answer) then Chosen(choice.url) else NoDecoder,
         r'.phase.Decoding?, false, Stuck(answer, choice, eofFails))
  }

  lemma ProceedOutcome(decode: seq<Url>, s: State, id: Id, r: Request, continues: bool, choice: Choice, eofFails: bool)
    requires decode != [] && (choice.Choose? ==> choice.url in s.decodeInflight)
    requires HasHandoff(r) && !r.handed && r.releases == [] && !r.eof && (continues <==> Continues(r.answer.value))
    requires eofFails ==> r.stream
    ensures var r' := Proceed(decode, s, id, r, continues, choice, eofFails).requests[id];
            OutcomeOk(decode, r'.(past := PastAfter(r.answer.value, r', choice, eofFails)))
  {
    hide UnpackPrefill, Continues, HasCreated, IsDetour, Finalize, ReleaseDecoder;
    var r' := Proceed(decode, s, id, r, continues, choice, eofFails).requests[id];
    var past := PastAfter(r.answer.value, r', choice, eofFails);
    if choice == NoChoice {
      if !r.stream {
        FinalizePhase(decode, s, id, r, NoDecoder, false, Raised);
        FinalizeOutcome(decode, s, id, r, NoDecoder, false, Raised, past);
      }
    } else if !continues {
      if !eofFails {
        FinalizePhase(decode, s, id, r.(eof := r.stream), NoDecoder, false, Answered);
        FinalizeOutcome(decode, s, id, r.(eof := r.stream), NoDecoder, false, Answered, past);
      }
    } else if !r.Created() && !r.stream {
      var s1 := State(s.prefillInflight, Add(s.decodeInflight, choice.url, 1),
                      s.requests[id := r.(phase := Decoding(choice.url))]);
      FinalizePhase(decode, s1, id, r, Chosen(choice.url), false, Raised);
      FinalizeOutcome(decode, s1, id, r, Chosen(choice.url), false, Raised, past);
    }
  }

  lemma FinalizePhase(decode: seq<Url>, s: State, id: Id, r: Request, d: Decoder, submitted: bool, end: End)
    requires decode != [] && (d.Chosen? ==> d.url in s.decodeInflight)
    ensures !Finalize(decode, s, id, r, d, submitted, end).requests[id].phase.Decoding?
  {
  }

  /** An event changes no other request. */
  lemma OthersSame(decode: seq<Url>, s: State, ev: Event)
    requires decode != [] && ev.id in s.requests && !ev.Arrive? && Enabled(s, ev)
    ensures var s' := Act(decode, s, ev);
            ev.id in s'.requests && s'.requests == s.requests[ev.id := s'.requests[ev.id]]
  {
    hide UnpackPrefill, Pending, ReleaseDecoder, Add;
  }

  lemma AnswerOutcome(decode: seq<Url>, s: State, ev: Event)
    requires decode != [] && ev.id in s.requests && !ev.Arrive? && Enabled(s, ev)
    requires s.requests[ev.id].phase.Prefilling?
    requires TransferOk(s.requests[ev.id]) && OutcomeOk(decode, s.requests[ev.id])
    ensures ev.id in Act(decode, s, ev).requests
    ensures OutcomeOk(decode, Noted(s.requests[ev.id], ev, Act(decode, s, ev).requests[ev.id]))
  {
    hide UnpackPrefill, Continues, HasCreated, IsDetour, Proceed, Unresolvable, Pending, Add;
    OthersSame(decode, s, ev);
    var id := ev.id;
    var r := s.requests[id];
    FirstDetour(decode);
    if ev.Answer? && UnpackPrefill(ev.answer).Unpacked? {
      UnpackedContinues(ev.answer);
      var continues := UnpackPrefill(ev.answer).continues;
      var r2 := r.(answer := Some(ev.answer), phase := Sending(continues));
      if !r.stream {
        ProceedOutcome(decode, PrefillEnds(s, id, r2), id, r2, continues, ev.choice, false);
      }
    }
  }

  lemma FirstDetour(decode: seq<Url>)
    requires decode != []
    ensures IsDetour(decode, NoDecoder, decode[0])
  {
  }

  lemma LaterOutcome(decode: seq<Url>, s: State, ev: Event)
    requires decode != [] && ev.id in s.requests && !ev.Arrive? && Enabled(s, ev)
    requires !s.requests[ev.id].phase.Prefilling?
    requires TransferOk(s.requests[ev.id]) && OutcomeOk(decode, s.requests[ev.id])
    ensures ev.id in Act(decode, s, ev).requests
    ensures OutcomeOk(decode, Noted(s.requests[ev.id], ev, Act(decode, s, ev).requests[ev.id]))
  {
    hide UnpackPrefill, Continues, HasCreated, IsDetour, Proceed, Finalize, Unresolvable, Pending, Add;
    OthersSame(decode, s, ev);
    var id := ev.id;
    var r := s.requests[id];
    var p := r.phase;
    var r' := Act(decode, s, ev).requests[id];
    var past := Noted(r, ev, r').past;
    match ev {
      case Sent(_, choice, eofFails) =>
        ProceedOutcome(decode, s, id, r.(sent := true), p.continues, choice, eofFails);
      case SendFailed(_) =>
      case DecodeDone(_) =>
        FinalizePhase(decode, s, id, r.(eof := r.stream), Chosen(p.decoder), true, Answered);
        FinalizeOutcome(decode, s, id, r.(eof := r.stream), Chosen(p.decoder), true, Answered, past);
      case DecodeFailed(_, unconnected) =>
        if !r.stream {
          FinalizePhase(decode, s, id, r, Chosen(p.decoder), !unconnected, Raised);
          FinalizeOutcome(decode, s, id, r, Chosen(p.decoder), !unconnected, Raised, past);
        }
      case Reported(_) =>
        FinalizePhase(decode, s, id, r, p.at, p.submitted, Raised);
        FinalizeOutcome(decode, s, id, r, p.at, p.submitted, Raised, past);
      case Cancelled(_) =>
        if p.Sending? {
          FinalizePhase(decode, s, id, r, NoDecoder, false, Raised);
          FinalizeOutcome(decode, s, id, r, NoDecoder, false, Raised, past);
        } else if p.Decoding? {
          FinalizePhase(decode, s, id, r, Chosen(p.decoder), true, Raised);
          FinalizeOutcome(decode, s, id, r, Chosen(p.decoder), true, Raised, past);
        } else if p.Reporting? {
          FinalizePhase(decode, s, id, r, p.at, p.submitted, Raised);
          FinalizeOutcome(decode, s, id, r, p.at, p.submitted, Raised, past);
        }
      case Released(_, _) =>
    }
  }

  lemma NextOutcomes(prefill: seq<Url>, decode: seq<Url>, s: State, ev: Event, s': State)
    requires decode != [] && Inv(prefill, decode, s) && Outcomes(decode, s) && Next(prefill, decode, s, ev, s')
    ensures Outcomes(decode, s')
  {
    hide Act, Enabled, TransferOk, OutcomeOk, Noted, AtPrefiller, AtDecoder;
    if ev.Arrive? {
      NewOutcome(decode, ev.stream, ev.prefiller);
    } else {
      RequestOk(prefill, decode, s, ev.id);
      OthersSame(decode, s, ev);
      if s.requests[ev.id].phase.Prefilling? {
        AnswerOutcome(decode, s, ev);
      } else {
        LaterOutcome(decode, s, ev);
      }
    }
  }

  lemma NewOutcome(decode: seq<Url>, stream: bool, u: Url)
    ensures OutcomeOk(decode, NewRequest(stream, u))
  {
  }

  // ----- whole runs

  ghost predicate Groups(prefill: seq<Url>, decode: seq<Url>, s: State) {
    (forall u :: u in s.prefillInflight <==> u in prefill) && (forall u :: u in s.decodeInflight <==> u in decode)
  }

  ghost predicate Run(prefill: seq<Url>, decode: seq<Url>, states: seq<State>, events: seq<Event>)
    requires decode != []
  {
    && |states| == |events| + 1
    && Groups(prefill, decode, states[0]) && states[0].requests == map[]
    && (forall u :: u in prefill ==> states[0].prefillInflight[u] == 0)
    && (forall u :: u in decode ==> states[0].decodeInflight[u] == 0)
    && forall i :: 0 <= i < |events| ==>
         Groups(prefill, decode, states[i]) && Next(prefill, decode, states[i], events[i], states[i + 1])
  }

  /** Over every run, at every moment: each counter is the number of requests using the worker,
      no transfer is released twice or while a decoder may have it, no stream reaches a decoder
      before its first token, a request is posted to a decoder only if its answer continues, and
      one that is over was answered exactly if nothing failed. */
  lemma {:induction false} RunSafe(prefill: seq<Url>, decode: seq<Url>, states: seq<State>, events: seq<Event>, i: nat)
    requires decode != [] && Run(prefill, decode, states, events) && i < |states|
    ensures Inv(prefill, decode, states[i]) && Outcomes(decode, states[i])
  {
    hide Next, Inv, OutcomeOk;
    if i == 0 {
      EmptyInv(prefill, decode, states[0]);
    } else {
      RunSafe(prefill, decode, states, events, i - 1);
      assert Groups(prefill, decode, states[i - 1]) &&
             Next(prefill, decode, states[i - 1], events[i - 1], states[i - 1 + 1]);
      NextKeeps(prefill, decode, states[i - 1], events[i - 1], states[i]);
      NextOutcomes(prefill, decode, states[i - 1], events[i - 1], states[i]);
    }
  }

  lemma EmptyInv(prefill: seq<Url>, decode: seq<Url>, s: State)
    requires Groups(prefill, decode, s) && s.requests == map[]
    requires (forall u :: u in prefill ==> s.prefillInflight[u] == 0) &&
              (forall u :: u in decode ==> s.decodeInflight[u] == 0)
    ensures Inv(prefill, decode, s)
  {
    forall u ensures AtPrefiller(s.requests, u) == {} && AtDecoder(s.requests, u) == {} {
    }
  }

  /** When every request is over, all counters are back to zero.  A transfer was resolved exactly
      once, by a decoder that may have it or by a release, exactly if its answer does not crash
      the unpacking; otherwise it was not resolved at all. */
  lemma Drained(prefill: seq<Url>, decode: seq<Url>, states: seq<State>, events: seq<Event>, i: nat)
    requires decode != [] && Run(prefill, decode, states, events) && i < |states|
    requires forall id :: id in states[i].requests ==> states[i].requests[id].phase.Finished?
    ensures forall u :: u in prefill ==> u in states[i].prefillInflight && states[i].prefillInflight[u] == 0
    ensures forall u :: u in decode ==> u in states[i].decodeInflight && states[i].decodeInflight[u] == 0
    ensures forall id :: id in states[i].requests && states[i].requests[id].Transfer() ==>
              var r := states[i].requests[id];
              && (ResolvedOnce(r) <==> !Unresolvable(r.answer.value))
              && (Unresolvable(r.answer.value) ==> !r.handed && r.releases == [])
    ensures forall id :: id in states[i].requests ==>
              var r := states[i].requests[id];
              && (r.phase.end == Answered <==> !r.past.failed)
              && (r.handed <==> r.past.posted && !r.past.refused)
              && (r.past.posted ==> r.answer.Some? && Continues(r.answer.value))
              && (r.phase.end == Answered ==> r.answer.Some? && (r.handed <==> Continues(r.answer.value)))
  {
    hide Run, Unresolvable, UnpackPrefill, Continues, IsDetour;
    RunSafe(prefill, decode, states, events, i);
    var s := states[i];
    forall u ensures AtPrefiller(s.requests, u) == {} && AtDecoder(s.requests, u) == {} {
    }
    forall id | id in s.requests && s.requests[id].Transfer()
      ensures var r := s.requests[id];
              && (ResolvedOnce(r) <==> !Unresolvable(r.answer.value))
              && (Unresolvable(r.answer.value) ==> !r.handed && r.releases == [])
    {
      RequestOk(prefill, decode, s, id);
    }
    forall id | id in s.requests
      ensures s.requests[id].handed <==> s.requests[id].past.posted && !s.requests[id].past.refused
    {
      RequestOk(prefill, decode, s, id);
      PostedHanded(decode, s.requests[id]);
    }
  }

  /** A request that is over and was posted to a decoder that could be reached is that decoder's. */
  lemma PostedHanded(decode: seq<Url>, r: Request)
    requires r.phase.Finished? && TransferOk(r) && OutcomeOk(decode, r)
    ensures r.handed <==> r.past.posted && !r.past.refused
  {
    hide Unresolvable, UnpackPrefill, Continues, IsDetour;
    if r.past.posted && !r.past.refused {
      HandoffResolvable(r);
    }
  }

  ghost predicate ResolvedOnce(r: Request) {
    if r.handed then r.releases == [] else |r.releases| == 1
  }

  lemma Idles(u: Url, s: State, s': State)
    requires s.prefillInflight == map[u := 1] && s'.prefillInflight == map[u := 0]
    requires s.decodeInflight == s'.decodeInflight && s.requests.Keys == s'.requests.Keys == {0}
    requires s.requests[0].phase == Prefilling(u)
    ensures PrefillEnds(s, 0, s'.requests[0]) == s'
  {
  }

  /** Two such answers: `choices` is null, or holds null. */
  lemma LosingAnswer(choices: Json)
    requires choices == Null || choices == Arr([Null])
    ensures Unresolvable(Obj(map["kv_transfer_params" := Obj(map["do_remote_prefill" := Bool(true)]),
                                 "choices" := choices]))
  {
    var transfer := Obj(map["do_remote_prefill" := Bool(true)]);
    var answer := Obj(map["kv_transfer_params" := transfer, "choices" := choices]);
    assert "choices" != "kv_transfer_params" by { assert |"choices"| != |"kv_transfer_params"|; }
    assert Get(answer.fields, "kv_transfer_params") == transfer && Choices(answer.fields) == choices;
  }

  /** The one request of an idle proxy. */
  function Alone(prefiller: Url, n: int, decoder: Url, r: Request): State {
    State(map[prefiller := n], map[decoder := 0], map[0 := r])
  }

  lemma LosingStep(prefiller: Url, decoder: Url, answer: Json, r: Request, r': Request)
    requires Unresolvable(answer) && r == NewRequest(false, prefiller)
    requires r' == r.(answer := Some(answer), phase := Finished(Raised), past := Past(NoDecoder, false, false, true))
    ensures Next([prefiller], [decoder], Alone(prefiller, 1, decoder, r), Answer(0, answer, NoChoice),
                 Alone(prefiller, 0, decoder, r'))
  {
    UnresolvableIff(answer);
    hide UnpackPrefill, Pending, Unresolvable, Proceed, PrefillEnds;
    var s1, r1 := Alone(prefiller, 1, decoder, r), r.(answer := Some(answer), phase := Finished(Raised));
    var s2 := Alone(prefiller, 0, decoder, r1);
    Idles(prefiller, s1, s2);
    assert Note(s1, Answer(0, answer, NoChoice), s2) == Alone(prefiller, 0, decoder, r');
  }

  /** After every such answer the transfer is neither fetched nor released. */
  lemma TransferLost(prefiller: Url, decoder: Url, answer: Json) returns (states: seq<State>, events: seq<Event>)
    requires Unresolvable(answer)
    ensures Run([prefiller], [decoder], states, events)
    ensures events == [Arrive(0, false, prefiller), Answer(0, answer, NoChoice)]
    ensures 0 in states[2].requests &&
            var r := states[2].requests[0];
            r.phase.Finished? && r.Transfer() && !r.handed && r.releases == []
  {
    UnresolvableIff(answer);
    hide UnpackPrefill, Pending, Unresolvable, Act, Note;
    var r := NewRequest(false, prefiller);
    var r' := r.(answer := Some(answer), phase := Finished(Raised), past := Past(NoDecoder, false, false, true));
    var s0 := State(map[prefiller := 0], map[decoder := 0], map[]);
    var s1, s2 := Alone(prefiller, 1, decoder, r), Alone(prefiller, 0, decoder, r');
    assert Next([prefiller], [decoder], s0, Arrive(0, false, prefiller), s1);
    LosingStep(prefiller, decoder, answer, r, r');
    states, events := [s0, s1, s2], [Arrive(0, false, prefiller), Answer(0, answer, NoChoice)];
  }

  /** A release avoids the decoder that could not be reached whenever there is another one. */
  lemma ReleaseElsewhere(decode: seq<Url>, d: Decoder)
    requires decode != []
    ensures ReleaseDecoder(decode, d) in decode
    ensures d.Chosen? && (exists u :: u in decode && u != d.url) ==> ReleaseDecoder(decode, d) != d.url
  {
    ReleaseIsDetour(decode, d);
  }
}
