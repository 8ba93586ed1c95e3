/** The per-tenant effect event chain and its verifier (scripts/verify_identity_undo_evidence.py). */
module EffectChain {
  import opened Wrappers
  import opened Json
  import HashChain

  datatype Event = Event(
    seqNo: int, tenant: string, effect: string, kind: string, actor: string, payload: Json,
    prevHash: string, recordHash: string, occurredAt: string)

  /** What an event's record hash covers. */
  function Hashed(e: Event): Json {
    Obj(map["tenant_id" := Str(e.tenant), "effect_id" := Str(e.effect), "event_type" := Str(e.kind),
            "actor_sub" := Str(e.actor), "payload" := e.payload, "prev_hash" := Str(e.prevHash)])
  }

  function Bodies(events: seq<Event>): seq<Json> {
    if events == [] then [] else Bodies(events[..|events| - 1]) + [Hashed(events[|events| - 1])]
  }

  function Head(hash: Json -> string, events: seq<Event>): string {
    if events == [] then "" else hash(Hashed(events[|events| - 1]))
  }

  function LastSeq(events: seq<Event>): int {
    if events == [] then -1 else events[|events| - 1].seqNo
  }

  datatype ChainError = EmptyChain | NotIncreasing(at: nat) | PredecessorMismatch(at: nat) | HashMismatch(at: nat)

  /** The first check an event fails. */
  function Flaw(hash: Json -> string, e: Event, previous: string, previousSeq: int, at: nat): Option<ChainError> {
    if e.seqNo <= previousSeq then Some(NotIncreasing(at))
    else if e.prevHash != previous then Some(PredecessorMismatch(at))
    else if e.recordHash != hash(Hashed(e)) then Some(HashMismatch(at))
    else None
  }

  predicate Verified(hash: Json -> string, events: seq<Event>) {
    events == [] ||
    var n := |events| - 1;
    Verified(hash, events[..n]) && Flaw(hash, events[n], Head(hash, events[..n]), LastSeq(events[..n]), n).None?
  }

  lemma {:induction false} VerifiedPrefix(hash: Json -> string, events: seq<Event>, n: nat)
    requires Verified(hash, events) && n <= |events|
    ensures Verified(hash, events[..n])
    ensures n < |events| ==> Flaw(hash, events[n], Head(hash, events[..n]), LastSeq(events[..n]), n).None?
    decreases |events|
  {
    var m := |events| - 1;
    if n < m {
      assert events[..m][..n] == events[..n];
      VerifiedPrefix(hash, events[..m], n);
    } else if n == |events| {
      assert events[..n] == events;
    }
  }

  /** Event by event: a larger number than the one before, its hash as the link, and the own hash. */
  ghost predicate WellChained(hash: Json -> string, events: seq<Event>, i: nat)
    requires i < |events|
  {
    && events[i].seqNo > (if i == 0 then -1 else events[i - 1].seqNo)
    && events[i].prevHash == (if i == 0 then "" else hash(Hashed(events[i - 1])))
    && events[i].recordHash == hash(Hashed(events[i]))
  }

  lemma {:induction false} VerifiedExactly(hash: Json -> string, events: seq<Event>)
    ensures Verified(hash, events) <==> forall i :: 0 <= i < |events| ==> WellChained(hash, events, i)
  {
    if events != [] {
      var n := |events| - 1;
      VerifiedExactly(hash, events[..n]);
      assert forall i :: 0 <= i < n ==> (WellChained(hash, events[..n], i) <==> WellChained(hash, events, i));
      assert Flaw(hash, events[n], Head(hash, events[..n]), LastSeq(events[..n]), n).None? <==>
               WellChained(hash, events, n);
    }
  }

  /** `verify_effect_chain`: accepts exactly the non-empty verified chains; an error is the first flaw. */
  method VerifyEffectChain(hash: Json -> string, events: seq<Event>) returns (error: Option<ChainError>)
    ensures error.None? <==> events != [] && Verified(hash, events)
    ensures error == Some(EmptyChain) <==> events == []
    ensures error.Some? && events != [] ==>
              var i := error.value.at;
              && i < |events| && Verified(hash, events[..i])
              && error == Flaw(hash, events[i], Head(hash, events[..i]), LastSeq(events[..i]), i)
  {
    if events == [] { return Some(EmptyChain); }
    var previous, previousSeq := "", -1;
    for i := 0 to |events|
      invariant Verified(hash, events[..i])
      invariant previous == Head(hash, events[..i]) && previousSeq == LastSeq(events[..i])
    {
      assert events[..i + 1][..i] == events[..i];
      error := Flaw(hash, events[i], previous, previousSeq, i);
      if error.Some? {
        if Verified(hash, events) { VerifiedPrefix(hash, events, i); }
        return;
      }
      previous, previousSeq := hash(Hashed(events[i])), events[i].seqNo;
    }
    assert events[..|events|] == events;
    return None;
  }

  function Link(body: Json): Json {
    if body.Obj? then Get(body.fields, "prev_hash") else Null
  }

  lemma {:induction false} VerifiedIsLinked(hash: Json -> string, events: seq<Event>)
    requires Verified(hash, events)
    ensures HashChain.Linked(hash, Link, Str(""), Bodies(events))
    ensures HashChain.LinkTo(hash, Str(""), Bodies(events)) == Str(Head(hash, events))
    ensures |Bodies(events)| == |events|
  {
    if events != [] {
      var n := |events| - 1;
      VerifiedIsLinked(hash, events[..n]);
      HashChain.LinkedAppend(hash, Link, Str(""), Bodies(events[..n]), Hashed(events[n]));
    }
  }

  /** The hash covers every field except the sequence number and the time stamp. */
  lemma HashedFields(a: Event, b: Event)
    ensures Hashed(a) == Hashed(b) <==>
              a == b.(seqNo := a.seqNo, occurredAt := a.occurredAt, recordHash := a.recordHash)
  {
    var f, g := Hashed(a).fields, Hashed(b).fields;
    if f == g {
      assert f["tenant_id"] == g["tenant_id"] && f["effect_id"] == g["effect_id"] && f["event_type"] == g["event_type"];
      assert f["actor_sub"] == g["actor_sub"] && f["payload"] == g["payload"] && f["prev_hash"] == g["prev_hash"];
    }
  }

  lemma {:induction false} SameBodies(a: seq<Event>, b: seq<Event>, i: nat)
    requires Bodies(a) == Bodies(b) && |a| == |b| && i < |a|
    ensures Hashed(a[i]) == Hashed(b[i])
    decreases |a|
  {
    var n := |a| - 1;
    var x, y := Bodies(a[..n]), Bodies(b[..n]);
    assert |Bodies(a)| == |x| + 1 && |Bodies(b)| == |y| + 1;
    assert x == Bodies(a)[..|x|] == Bodies(b)[..|y|] == y;
    assert Bodies(a)[|x|] == Bodies(b)[|y|];
    if i < n { SameBodies(a[..n], b[..n], i); }
  }

  /**
   Two accepted chains that end in the same record hash have the same length and agree on every
   hashed field of every event, unless they exhibit a hash collision.
   */
  lemma EffectHeadCommits(hash: Json -> string, a: seq<Event>, b: seq<Event>, i: nat)
    requires Verified(hash, a) && Verified(hash, b) && (forall x :: hash(x) != "")
    requires Head(hash, a) == Head(hash, b) && i < |a|
    ensures HashChain.Collision(hash, Bodies(a), Bodies(b))
         || (|a| == |b|
             && a[i] == b[i].(seqNo := a[i].seqNo, occurredAt := a[i].occurredAt, recordHash := a[i].recordHash))
  {
    VerifiedIsLinked(hash, a);
    VerifiedIsLinked(hash, b);
    HashChain.HeadCommits(hash, Link, Str(""), Bodies(a), Bodies(b));
    if Bodies(a) == Bodies(b) {
      SameBodies(a, b, i);
      HashedFields(a[i], b[i]);
    }
  }

  /** A chain with other sequence numbers and time stamps. */
  function Restamped(events: seq<Event>, seqs: seq<int>, times: seq<string>): seq<Event>
    requires |events| == |seqs| == |times|
  {
    if events == [] then [] else
      var n := |events| - 1;
      Restamped(events[..n], seqs[..n], times[..n]) + [events[n].(seqNo := seqs[n], occurredAt := times[n])]
  }

  lemma RestampLast(hash: Json -> string, earlier: seq<Event>, last: Event, restamped: seq<Event>, number: int,
                    time: string)
    requires Verified(hash, earlier + [last]) && Verified(hash, restamped)
    requires Head(hash, restamped) == Head(hash, earlier)
    ensures var e := last.(seqNo := number, occurredAt := time);
            && (Verified(hash, restamped + [e]) <==> number > LastSeq(restamped))
            && Head(hash, restamped + [e]) == Head(hash, earlier + [last])
  {
    var e := last.(seqNo := number, occurredAt := time);
    HashedFields(e, last);
    assert (earlier + [last])[..|earlier|] == earlier;
    VerifiedAppend(hash, earlier, last);
    VerifiedAppend(hash, restamped, e);
  }

  lemma RestampedEnds(hash: Json -> string, events: seq<Event>, seqs: seq<int>, times: seq<string>)
    requires |events| == |seqs| == |times|
    ensures |Restamped(events, seqs, times)| == |events|
    ensures Head(hash, Restamped(events, seqs, times)) == Head(hash, events)
    ensures LastSeq(Restamped(events, seqs, times)) == if events == [] then -1 else seqs[|events| - 1]
  {
    if events != [] {
      var n := |events| - 1;
      RestampedEnds(hash, events[..n], seqs[..n], times[..n]);
      HashedFields(events[n].(seqNo := seqs[n], occurredAt := times[n]), events[n]);
    }
  }

  predicate Larger(seqs: seq<int>, i: nat)
    requires i < |seqs|
  {
    seqs[i] > if i == 0 then -1 else seqs[i - 1]
  }

  /**
   The verifier protects the order of events but neither their numbers nor their times: with the numbers and
   times replaced, a verified chain keeps its head hash, and verifies exactly if the numbers grow from 0 on.
   */
  lemma {:induction false} StampsAreNotProtected(hash: Json -> string, events: seq<Event>, seqs: seq<int>,
                                                 times: seq<string>)
    requires Verified(hash, events) && |events| == |seqs| == |times|
    ensures Head(hash, Restamped(events, seqs, times)) == Head(hash, events)
    ensures Verified(hash, Restamped(events, seqs, times)) <==>
              forall i :: 0 <= i < |seqs| ==> Larger(seqs, i)
  {
    RestampedEnds(hash, events, seqs, times);
    RestampedVerifies(hash, events, seqs, times);
  }

  lemma {:induction false} RestampedVerifies(hash: Json -> string, events: seq<Event>, seqs: seq<int>,
                                             times: seq<string>)
    requires Verified(hash, events) && |events| == |seqs| == |times|
    ensures Verified(hash, Restamped(events, seqs, times)) <==> forall i :: 0 <= i < |seqs| ==> Larger(seqs, i)
  {
    if events != [] {
      var n := |events| - 1;
      RestampedVerifies(hash, events[..n], seqs[..n], times[..n]);
      LastRestamped(hash, events, seqs, times);
      assert forall i :: 0 <= i < n ==> (Larger(seqs[..n], i) <==> Larger(seqs, i));
    }
  }

  /** The last event goes on verifying exactly if the others do and its number is larger. */
  lemma LastRestamped(hash: Json -> string, events: seq<Event>, seqs: seq<int>, times: seq<string>)
    requires Verified(hash, events) && |events| == |seqs| == |times| && events != []
    ensures var n := |events| - 1;
            Verified(hash, Restamped(events, seqs, times)) <==>
              Verified(hash, Restamped(events[..n], seqs[..n], times[..n])) && Larger(seqs, n)
  {
    var n := |events| - 1;
    var restamped := Restamped(events[..n], seqs[..n], times[..n]);
    var e := events[n].(seqNo := seqs[n], occurredAt := times[n]);
    RestampedEnds(hash, events[..n], seqs[..n], times[..n]);
    assert events[..n] + [events[n]] == events;
    assert (restamped + [e])[..n] == restamped;
    if Verified(hash, restamped) { RestampLast(hash, events[..n], events[n], restamped, seqs[n], times[n]); }
  }

  /** What appending an event needs: exactly a larger number, the right link and its own hash. */
  lemma VerifiedAppend(hash: Json -> string, events: seq<Event>, e: Event)
    requires Verified(hash, events)
    ensures Verified(hash, events + [e]) <==>
              e.seqNo > LastSeq(events) && e.prevHash == Head(hash, events) && e.recordHash == hash(Hashed(e))
  {
    assert (events + [e])[..|events|] == events;
  }
}
