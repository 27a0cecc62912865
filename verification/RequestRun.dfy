// The whole life of the texts of a request in one run of the protocol: their
// calls, any steps of other clients, and the rehydration at the end.
module RequestRun {
  import opened Wrappers
  import opened VaultStore
  import opened VaultProtocol
  import opened VaultSafety
  import opened VaultRotation
  import opened VaultCalls
  import opened CollisionTracker
  import opened TextPipeline
  import SpanFusion
  import CarryOver

  // Neither expiry nor a flush has taken the key.
  ghost predicate Kept(log: seq<Event>, k: Key) {
    forall n :: 0 <= n < |log| && log[n].Drop? ==> k !in log[n].keys
  }

  lemma {:induction false} PutStays(log: seq<Event>, k: Key, n: nat)
    requires n < |log| && log[n].Put? && log[n].key == k && Kept(log, k)
    ensures k in Replay(log)
    decreases |log|
  {
    var last := |log| - 1;
    if n < last {
      PutStays(log[..last], k, n);
      assert log[last].Drop? ==> k !in log[last].keys;
    }
  }

  // Client i has returned from tokenising the text, its tokens were neither
  // flushed nor expired, and the rest of the text holds no token of the request.
  ghost predicate Returned(org: string, s: State, i: nat, text: string) {
    && i in s.clients && s.clients[i].Tokenized?
    && var call := s.clients[i].call;
       && Fits(text, call.spans)
       && (forall e :: e in call.a.entries ==> Kept(s.log, Key(call.req, e.hash)))
       && Quiet(text, call.spans, Lookup(org, s.db, call.req))
  }

  // What the call returned for the text rehydrates to the given result.
  ghost predicate Rehydrates(org: string, s: State, i: nat, text: string, result: string)
    requires i in s.clients && s.clients[i].Tokenized?
  {
    var call := s.clients[i].call;
    && |call.a.entries| == |call.spans| && Fits(text, call.spans)
    && Rehydrated(TokenizedText(text, call.spans, call.a.entries), Lookup(org, s.db, call.req)) == result
  }

  lemma CallLive(org: string, steps: seq<Step>, s: State, i: nat, text: string)
    requires Run(Init(org), steps) == Some(s) && Returned(org, s, i, text)
    ensures AllLive(s.db, s.clients[i].call.req, s.clients[i].call.a.entries)
  {
    hide Kept, Run, Assign, Fits, Quiet;
    Refinement(org, steps, s);
    ReturnedMeansStored(org, steps, s, i);
    var call := s.clients[i].call;
    forall n | 0 <= n < |call.a.entries| ensures Key(call.req, call.a.entries[n].hash) in s.db.tokens {
      var e := call.a.entries[n];
      assert e in call.a.entries && WasPut(s.log, call.req, e);
      var m :| 0 <= m < |s.log| && s.log[m].Put? && s.log[m].key == Key(call.req, e.hash);
      PutStays(s.log, s.log[m].key, m);
    }
  }

  // The calls of a request have all returned and agree on what a hash stands for.
  ghost predicate Agreed(s: State, ids: set<nat>, owner: map<string, string>) {
    forall i :: i in ids && i in s.clients ==> s.clients[i].Tokenized? && Extends(s.clients[i].call.a.seen, owner)
  }

  // Every span of a returned call comes back as its text, if the calls of its
  // request agree on what each hash stands for.
  lemma AgreedRehydrates(org: string, steps: seq<Step>, s: State, i: nat, text: string,
                         ids: set<nat>, owner: map<string, string>)
    requires Run(Init(org), steps) == Some(s) && Returned(org, s, i, text)
    requires OnlyBy(steps, s.clients[i].call.req, ids) && i in ids && Agreed(s, ids, owner)
    ensures Rehydrates(org, s, i, text, Normalised(text, s.clients[i].call.spans))
  {
    hide Kept, Run, OnlyBy, Fits, Quiet, Lookup, Rehydrated, TokenizedText, Normalised, AssignRest, EntryOk;
    var call := s.clients[i].call;
    CallLive(org, steps, s, i, text);
    ReturnedMeansStored(org, steps, s, i);
    AssignSound(Assigned([], call.seed, map[]), call.spans, call.bases);
    forall n, j | 0 <= n < |s.log| && 0 <= j < |call.a.entries| && s.log[n].Put?
                  && s.log[n].key == Key(call.req, call.a.entries[j].hash)
      ensures s.log[n].text == call.a.entries[j].original
    {
      StoresAgree(org, steps, s, call.req, ids, owner, n);
      EntryHash(call.a.seen, call.a.entries[j]);
    }
    EndToEnd(org, steps, s, call.req, text, call.spans, call.seed, call.bases);
  }

  // ---- One call ----

  // Tokenise, let every other client do as it likes, rehydrate: each span comes
  // back as its text and nothing else changes, when no other call used the request.
  lemma TokenizeThenRehydrate(org: string, steps: seq<Step>, s: State, i: nat, text: string)
    requires Run(Init(org), steps) == Some(s) && Returned(org, s, i, text)
    requires OnlyBy(steps, s.clients[i].call.req, {i})
    ensures Rehydrates(org, s, i, text, Normalised(text, s.clients[i].call.spans))
  {
    hide Run, OnlyBy, Fits, Quiet, Kept, Lookup, Rehydrated, TokenizedText, Normalised;
    AgreedRehydrates(org, steps, s, i, text, {i}, s.clients[i].call.a.seen);
  }

  // The original text comes back, character for character, if and only if every
  // one-character gap that fusion merged over is a space.
  lemma ExactIffSpaces(org: string, steps: seq<Step>, s: State, i: nat, text: string, detected: seq<SpanFusion.Span>)
    requires Run(Init(org), steps) == Some(s) && Returned(org, s, i, text)
    requires OnlyBy(steps, s.clients[i].call.req, {i})
    requires SpanFusion.AllValid(detected) && SpanFusion.AllSlices(text, detected)
    requires s.clients[i].call.spans == SpanFusion.Fuse(detected)
    ensures Rehydrates(org, s, i, text, text)
       <==> SpanFusion.SpacesBridged(text, SpanFusion.Resolve(SpanFusion.Sort(detected)))
  {
    hide Run, OnlyBy, Quiet, Lookup, Rehydrated, TokenizedText, Normalised, Fits, Kept;
    TokenizeThenRehydrate(org, steps, s, i, text);
    NormalisedExact(text, detected);
  }

  // ---- All texts of one route call ----

  function WorkOf(call: Call): CarryOver.Work {
    if |call.spans| == |call.bases| then CarryOver.Detections(call.spans, call.bases) else CarryOver.Detections([], [])
  }

  // The calls ran one after the other, each seeded with the carry-over map that
  // the ones before it left.
  ghost predicate Chained(s: State, req: string, calls: seq<nat>, items: Carry)
    decreases |calls|
  {
    calls == [] ||
    (&& calls[0] in s.clients && s.clients[calls[0]].Tokenized?
     && var call := s.clients[calls[0]].call;
        && call.req == req && call.seed == SeedAll(map[], items)
        && Chained(s, req, calls[1..], CarryOver.Record(items, call.a.entries)))
  }

  function Works(s: State, calls: seq<nat>): (r: seq<CarryOver.Work>)
    requires forall n :: 0 <= n < |calls| ==> calls[n] in s.clients && s.clients[calls[n]].Tokenized?
    ensures |r| == |calls| && forall n :: 0 <= n < |calls| ==> r[n] == WorkOf(s.clients[calls[n]].call)
  {
    seq(|calls|, n requires 0 <= n < |calls| => WorkOf(s.clients[calls[n]].call))
  }

  lemma {:induction false} ChainedAll(s: State, req: string, calls: seq<nat>, items: Carry, n: nat)
    requires Chained(s, req, calls, items) && n < |calls|
    ensures calls[n] in s.clients && s.clients[calls[n]].Tokenized? && s.clients[calls[n]].call.req == req
    decreases |calls|
  {
    if n > 0 {
      ChainedAll(s, req, calls[1..], CarryOver.Record(items, s.clients[calls[0]].call.a.entries), n - 1);
    }
  }

  // The route's loop over the texts is what these calls did.
  lemma {:induction false} ChainIsTexts(s: State, req: string, calls: seq<nat>, items: Carry)
    requires AllTruthful(s) && Chained(s, req, calls, items)
    requires forall n :: 0 <= n < |calls| ==> calls[n] in s.clients && s.clients[calls[n]].Tokenized?
    ensures var r := CarryOver.Texts(items, Works(s, calls));
            && r.Some? && |r.value.1| == |calls|
            && forall n :: 0 <= n < |calls| ==> r.value.1[n] == s.clients[calls[n]].call.a
    decreases |calls|
  {
    hide Assign, CarryOver.Record, SeedAll, WasPut;
    if calls != [] {
      var call := s.clients[calls[0]].call;
      assert Truthful(s.log, s.clients[calls[0]]);
      ChainIsTexts(s, req, calls[1..], CarryOver.Record(items, call.a.entries));
      var works := Works(s, calls);
      assert works[1..] == Works(s, calls[1..]);
      assert CarryOver.Call(items, works[0]) == Some(call.a);
    }
  }

  // Every text of a route call comes back, if carried values keep their hashes.
  lemma RouteRehydrates(org: string, steps: seq<Step>, s: State, req: string, calls: seq<nat>,
                        items: Carry, seen: map<string, string>, m: nat, text: string)
    requires Run(Init(org), steps) == Some(s) && OnlyBy(steps, req, set i | i in calls)
    requires CarryOver.Mirrors(items, seen) && Chained(s, req, calls, items)
    requires forall n :: 0 <= n < |calls| ==> calls[n] in s.clients && s.clients[calls[n]].Tokenized?
    requires CarryOver.KeepsAll(items, Works(s, calls))
    requires m < |calls| && Returned(org, s, calls[m], text)
    ensures Rehydrates(org, s, calls[m], text, Normalised(text, s.clients[calls[m]].call.spans))
  {
    hide Run, OnlyBy, Chained, Returned, Rehydrates, Normalised, CarryOver.Mirrors, CarryOver.KeepsAll, CarryOver.Texts;
    var ids := set i | i in calls;
    RunTruthful(Init(org), steps);
    ChainIsTexts(s, req, calls, items);
    ChainedAll(s, req, calls, items, m);
    var owner := CarryOver.TextsSound(items, seen, Works(s, calls));
    forall i | i in ids ensures s.clients[i].Tokenized? && Extends(s.clients[i].call.a.seen, owner) {
      var n :| 0 <= n < |calls| && calls[n] == i;
    }
    AgreedRehydrates(org, steps, s, calls[m], text, ids, owner);
  }
}
