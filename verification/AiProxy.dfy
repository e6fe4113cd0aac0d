/** The two charged AI endpoints: one reservation per request, refunded at most once, and kept
    exactly when an answer was delivered. */
module AiProxy {
  import opened Numbers
  import opened Wrappers
  import Quota
  import Sse = SseInspector
  import Verdicts = SseVerdict

  /** What the upstream and the connections do during one streamed request. */
  datatype Upstream =
    | Unreachable
    | Refused
    | Streaming(
        quotaReadFails: bool,       // the quota read before the headers throws
        chunks: seq<Sse.Chunk>,
        clientLeavesAt: nat,        // `res.destroyed` from this chunk on
        breaks: bool,               // the stream throws after its last chunk
        endFails: bool)             // closing the response throws

  /** The chunks that are inspected before the client leaves. */
  function Inspected(u: Upstream): seq<Sse.Chunk>
    requires u.Streaming?
  {
    u.chunks[..Min(|u.chunks|, u.clientLeavesAt)]
  }

  /** The handler ran to its end, because the stream did or the client left, and the verdict on
      the chunks inspected until then found an answer without an error. */
  predicate Delivered(parse: Sse.Parser, decoder: Sse.Decoder, u: Upstream) {
    && u.Streaming?
    && !u.quotaReadFails && !u.endFails
    && (u.clientLeavesAt < |u.chunks| || !u.breaks)
    && !Verdicts.Judge(parse, decoder, Inspected(u)).shouldRefund
  }

  function Net(rows: Quota.Rows, plan: Quota.Plan, entry: Quota.Date, today: Quota.Date, kept: bool): Quota.Rows {
    var (charged, r) := Quota.ConsumeSpec(rows, plan, entry, today);
    if r.Err? || kept then charged else Quota.RefundSpec(charged, r.value)
  }

  /** One reservation with the flag of `refundOnce`. */
  class Charge {
    const service: Quota.PlansService
    const reservation: Quota.Reservation
    var refunded: bool

    constructor (service: Quota.PlansService, reservation: Quota.Reservation)
      ensures this.service == service && this.reservation == reservation && !refunded
    {
      this.service := service;
      this.reservation := reservation;
      refunded := false;
    }

    /** The flag is set before the refund is awaited: one that fails is not tried again. */
    method RefundOnce(refundFails: bool) returns (thrown: bool)
      modifies this, service
      ensures refunded && thrown == (refundFails && !old(refunded))
      ensures service.rows == if old(refunded) || refundFails then old(service.rows)
                              else Quota.RefundSpec(old(service.rows), reservation)
    {
      if refunded {
        return false;
      }
      refunded := true;
      if refundFails {
        return true;
      }
      service.RefundQuota(reservation);
      return false;
    }
  }

  lemma {:induction false} PushAllSnoc(parse: Sse.Parser, decoder: Sse.Decoder, s: Sse.Inspector, chunks: seq<Sse.Chunk>, next: Sse.Chunk)
    ensures Verdicts.PushAll(parse, decoder, s, chunks + [next])
         == Sse.Push(parse, decoder, Verdicts.PushAll(parse, decoder, s, chunks), next)
    decreases |chunks|
  {
    if chunks == [] {
      assert [] + [next] == [next] && [next][1..] == [];
      assert Verdicts.PushAll(parse, decoder, s, [next]) == Verdicts.PushAll(parse, decoder, Sse.Push(parse, decoder, s, next), []);
    } else {
      assert (chunks + [next])[0] == chunks[0] && (chunks + [next])[1..] == chunks[1..] + [next];
      PushAllSnoc(parse, decoder, Sse.Push(parse, decoder, s, chunks[0]), chunks[1..], next);
    }
  }

  /** The `for await` loop: inspects chunks until the client leaves. */
  method Relay(inspector: Sse.AiSseInspector, chunks: seq<Sse.Chunk>, clientLeavesAt: nat) returns (count: nat)
    requires inspector.State() == Sse.FRESH
    modifies inspector
    ensures count == Min(|chunks|, clientLeavesAt)
    ensures inspector.State() == Verdicts.PushAll(inspector.parse, inspector.decoder, Sse.FRESH, chunks[..count])
  {
    hide Sse.Push, Verdicts.PushAll;
    count := 0;
    NothingPushed(inspector.parse, inspector.decoder);
    while count < |chunks| && count < clientLeavesAt
      invariant count <= |chunks| && count <= clientLeavesAt
      invariant inspector.State() == Verdicts.PushAll(inspector.parse, inspector.decoder, Sse.FRESH, chunks[..count])
    {
      PushAllSnoc(inspector.parse, inspector.decoder, Sse.FRESH, chunks[..count], chunks[count]);
      assert chunks[..count] + [chunks[count]] == chunks[..count + 1];
      inspector.PushChunk(chunks[count]);
      count := count + 1;
    }
  }

  lemma NothingPushed(parse: Sse.Parser, decoder: Sse.Decoder)
    ensures Verdicts.PushAll(parse, decoder, Sse.FRESH, []) == Sse.FRESH
  {
  }

  /** The streaming part of `proxyAi`; `None` when the stream throws. */
  method RelayStream(parse: Sse.Parser, decoder: Sse.Decoder, u: Upstream) returns (verdict: Option<Sse.Verdict>)
    requires u.Streaming?
    ensures verdict == if u.clientLeavesAt < |u.chunks| || !u.breaks
                       then Some(Verdicts.Judge(parse, decoder, Inspected(u))) else None
  {
    hide Sse.Push, Sse.Finish, Verdicts.PushAll;
    var inspector := new Sse.AiSseInspector(parse, decoder);
    var count := Relay(inspector, u.chunks, u.clientLeavesAt);
    if u.clientLeavesAt >= |u.chunks| && u.breaks {
      return None;
    }
    var v := inspector.FinishStream();
    return Some(v);
  }

  /** `POST /plans/ai` after validation: charged for a delivered answer, free otherwise unless
      the database fails the one refund. */
  method ProxyAi(service: Quota.PlansService, parse: Sse.Parser, decoder: Sse.Decoder, plan: Quota.Plan,
                 entry: Quota.Date, today: Quota.Date, u: Upstream, refundFails: bool)
    returns (refused: bool, charge: Charge?)
    modifies service
    ensures service.rows == Net(old(service.rows), plan, entry, today, Delivered(parse, decoder, u) || refundFails)
    ensures refused == Quota.ConsumeSpec(old(service.rows), plan, entry, today).1.Err?
    ensures !refused ==> charge != null && fresh(charge) && charge.refunded == !Delivered(parse, decoder, u)
  {
    charge := null;
    var r := service.ConsumeQuota(plan, entry, today);
    if r.Err? {
      return true, null;
    }
    refused := false;
    charge := new Charge(service, r.value);
    var failed := true;
    match u {
      case Unreachable =>
      case Refused =>
      case Streaming(quotaReadFails, _, _, _, endFails) =>
        if !quotaReadFails {
          var status := service.CheckQuota(plan, today);
          var verdict := RelayStream(parse, decoder, u);
          if verdict.Some? {
            var thrown := false;
            if verdict.value.shouldRefund {
              thrown := charge.RefundOnce(refundFails);
            }
            failed := thrown || endFails;
          }
        }
    }
    if failed {
      // the catch block runs even when the refund above already happened
      var _ := charge.RefundOnce(refundFails);
    }
  }

  /** What one attempt of the non-streaming endpoint brings. */
  datatype Attempt =
    | Overloaded            // 429 or 5xx
    | Rejected              // any other error status
    | Broken                // no connection, timeout or unreadable body
    | EmptyAnswer
    | Answer(content: string)

  predicate Retried(a: Attempt) {
    a.Overloaded? || a.Broken?
  }

  /** The answer of two attempts: the second is made only after a passing failure. */
  function AnswerOf(first: Attempt, second: Attempt): Option<string> {
    if first.Answer? then Some(first.content)
    else if Retried(first) && second.Answer? then Some(second.content)
    else None
  }

  /** `POST /plans/tuvi-ai`: one question is charged once, whatever its retries, and only for an
      answer. */
  method InterpretTuvi(service: Quota.PlansService, plan: Quota.Plan, entry: Quota.Date, today: Quota.Date,
                       attempts: seq<Attempt>)
    returns (answer: Option<string>)
    requires |attempts| == 2
    modifies service
    ensures service.rows == Net(old(service.rows), plan, entry, today, AnswerOf(attempts[0], attempts[1]).Some?)
    ensures answer == if Quota.ConsumeSpec(old(service.rows), plan, entry, today).1.Err? then None
                      else AnswerOf(attempts[0], attempts[1])
  {
    answer := None;
    var r := service.ConsumeQuota(plan, entry, today);
    if r.Err? {
      return;
    }
    var attempt := 0;
    while attempt < 2
      invariant 0 <= attempt <= 2 && answer.None?
      invariant attempt > 0 ==> Retried(attempts[0])
      invariant attempt > 1 ==> Retried(attempts[1])
    {
      match attempts[attempt] {
        case Answer(content) => return Some(content);
        case Overloaded => if attempt == 1 { break; }
        case Broken => if attempt == 1 { break; }
        case _ => break;
      }
      attempt := attempt + 1;
    }
    service.RefundQuota(r.value);
  }

  /** With a steady clock a request without an answer leaves the ledger as it was. */
  lemma UndeliveredIsFree(rows: Quota.Rows, plan: Quota.Plan, today: Quota.Date)
    requires forall d <- rows :: 0 <= rows[d].daily && 0 <= rows[d].monthly
    ensures var net := Net(rows, plan, today, today, false);
      net == Quota.WithRow(rows, today) || (net == rows && Quota.ConsumeSpec(rows, plan, today, today).1.Err?)
  {
    if Quota.ConsumeSpec(rows, plan, today, today).1.Ok? {
      Quota.RefundUndoesConsume(rows, plan, today, today);
    }
  }
}
