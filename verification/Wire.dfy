/** A client's line to the store. At each wait of the client, others act on the store first, as a script
    says that nothing is known of; a request may never arrive, or arrive with its answer lost. */
module Wire {
  import opened Wrappers
  import opened Contract
  import opened Store
  import opened Marks

  datatype Fate = Heard | ReplyLost | NeverArrives

  datatype Arrival = Arrival(delay: nat, request: Request)

  /** What happens during one wait: the others' requests, then time, then the fate of the client's own. */
  datatype Turn = Turn(others: seq<Arrival>, delay: nat, fate: Fate)

  datatype Read = Read(entry: Option<Held>, now: int)

  class Line {
    /** Every request that reached the store, in order, anyone's. */
    var calls: seq<Call>
    var now: int
    /** What the waits to come will bring; once it is used up, nothing arrives any more. */
    var turns: seq<Turn>
    /** The marks the client has drawn, and what it has sent under them. */
    var drawn: set<string>
    var sent: set<Request>
    var longest: nat
    /** Which of the calls are the client's own unmarked ones. */
    var asked: set<nat>

    ghost predicate Valid()
      reads this
    {
      && Monotone(calls)
      && (forall c :: c in calls ==> c.at <= now)
      && (forall c :: c in calls && c.request.mark.Some? ==> |c.request.mark.value| <= longest)
      && (forall m :: m in drawn ==> |m| <= longest)
      // Only the client's own sends, and copies of them, bear a mark it drew.
      && (forall c :: c in calls && c.request.mark.Some? && c.request.mark.value in drawn ==> c.request in sent)
      && (forall r :: r in sent ==> r.mark.Some? && r.mark.value in drawn)
      && (forall q, r :: q in sent && r in sent && q.mark == r.mark ==> q == r)
      && (forall i :: i in asked ==> i < |calls|)
    }

    /** Time and the run go on; nothing that happened is undone. */
    twostate predicate Grew()
      reads this
    {
      old(calls) <= calls && old(now) <= now && old(drawn) <= drawn && old(sent) <= sent
    }

    constructor (turns: seq<Turn>)
      ensures Valid() && calls == [] && sent == {} && this.turns == turns
    {
      calls, now, this.turns, drawn, sent, longest, asked := [], 0, turns, {}, {}, 0, {};
    }

    method Arrive(r: Request)
      requires Valid()
      requires r.mark.Some? && r.mark.value in drawn ==> r in sent
      modifies this`calls, this`longest
      ensures Valid() && calls == old(calls) + [Call(now, r)]
    {
      calls := calls + [Call(now, r)];
      if r.mark.Some? && |r.mark.value| > longest { longest := |r.mark.value|; }
      forall c | c in calls ensures c in old(calls) || c == Call(now, r) {}
    }

    /** Others act, and time passes. A mark the client drew is unguessable: no other request bears it. */
    method Wait() returns (fate: Fate)
      requires Valid()
      modifies this`calls, this`longest, this`now, this`turns
      ensures Valid() && Grew()
      ensures forall j :: |old(calls)| <= j < |calls| ==> old(now) <= calls[j].at
    {
      if turns == [] { return NeverArrives; }
      var turn := turns[0];
      turns := turns[1..];
      var i := 0;
      while i < |turn.others|
        invariant Valid() && Grew() && i <= |turn.others|
        invariant forall j :: |old(calls)| <= j < |calls| ==> old(now) <= calls[j].at
      {
        var other := turn.others[i];
        now := now + other.delay;
        var r := other.request;
        if !(r.mark.Some? && r.mark.value in drawn && r !in sent) { Arrive(r); }
        i := i + 1;
      }
      now := now + turn.delay;
      return turn.fate;
    }

    /** A mark no request has borne. */
    method Draw() returns (mark: string)
      requires Valid()
      modifies this`drawn, this`longest
      ensures Valid() && Grew() && mark in drawn && drawn == old(drawn) + {mark} && mark !in old(drawn)
      ensures forall c :: c in calls ==> c.request.mark != Some(mark)
      ensures forall r :: r in sent ==> r.mark != Some(mark)
    {
      mark := seq(longest + 1, _ => 'm');
      longest := longest + 1;
      drawn := drawn + {mark};
    }

    /** One send: its answer, or none when it is unavailable, and then whether it arrived is unknown. */
    method Send(r: Request) returns (reply: Option<Answer>)
      requires Valid() && r.mark.Some? && r.mark.value in drawn
      requires forall q :: q in sent && q.mark == r.mark ==> q == r
      modifies this`calls, this`longest, this`now, this`turns, this`sent
      ensures Valid() && Grew() && sent == old(sent) + {r}
      ensures reply.Some? ==>
        |old(calls)| < |calls| && calls[|calls| - 1].request == r && reply.value == AnsweredAt(calls, |calls| - 1)
    {
      sent := sent + {r};
      var fate := Wait();
      if fate == NeverArrives { return None; }
      Arrive(r);
      if fate == ReplyLost { return None; }
      return Some(AnsweredAt(calls, |calls| - 1));
    }

    /** One unmarked send, never made again: with no answer, whether it arrived stays unknown. */
    method Ask(r: Request) returns (reply: Option<Answer>)
      requires Valid() && r.mark.None?
      modifies this`calls, this`longest, this`now, this`turns, this`asked
      ensures Valid() && Grew()
      ensures asked == old(asked) || (asked == old(asked) + {|calls| - 1} && |old(calls)| < |calls|)
      ensures asked != old(asked) ==> calls[|calls| - 1].request == r
      ensures reply.Some? ==> asked == old(asked) + {|calls| - 1} && |old(calls)| < |calls|
      ensures forall j :: |old(calls)| <= j < |calls| ==> old(now) <= calls[j].at
      ensures reply.Some? ==> calls[|calls| - 1].request == r && reply.value == AnsweredAt(calls, |calls| - 1)
    {
      var fate := Wait();
      if fate == NeverArrives { return None; }
      Land(r);
      return if fate == ReplyLost then None else Some(AnsweredAt(calls, |calls| - 1));
    }

    method Land(r: Request)
      requires Valid() && r.mark.None?
      modifies this`calls, this`longest, this`asked
      ensures Valid() && calls == old(calls) + [Call(now, r)] && asked == old(asked) + {|calls| - 1}
    {
      Arrive(r);
      asked := asked + {|calls| - 1};
    }

    /** A read of one key, and the store's time. */
    method Get(k: Key) returns (read: Option<Read>)
      requires Valid()
      modifies this`calls, this`longest, this`now, this`turns
      ensures Valid() && Grew()
      ensures read.Some? ==> read.value == Read(Look(Met(calls, |calls|).values, k, now), now)
    {
      var fate := Wait();
      if fate != Heard { return None; }
      return Some(Read(Look(Met(calls, |calls|).values, k, now), now));
    }

    method Now() returns (time: Option<int>)
      requires Valid()
      modifies this`calls, this`longest, this`now, this`turns
      ensures Valid() && Grew()
      ensures time.Some? ==> time.value == now
    {
      var fate := Wait();
      return if fate == Heard then Some(now) else None;
    }
  }
}
