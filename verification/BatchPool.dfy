/** The mutable pool of services/adaptive_batch_pool.py, one method per stretch of code that runs
    without yielding to the event loop, tied to BatchPoolModel. */
module BatchPool {
  import opened Prelude
  import opened BatchPoolModel

  class AdaptiveBatchPool {
    const config: Config
    var running: bool
    var queue: seq<Request>
    var futures: seq<Outcome>
    var coordinator: Coordinator
    var batches: seq<Batch>
    var stats: Stats
    ghost var accepted: seq<Request>

    constructor (config: Config)
      ensures Contents() == Started(config)
    {
      this.config := config;
      running, queue, futures, coordinator, batches := true, [], [], Idle, [];
      stats := Stats(0, 0, 0, 0.0, 0.0, []);
      accepted := [];
    }

    ghost function Contents(): State
      reads this
    {
      State(config, running, accepted, futures, queue, coordinator, batches, stats)
    }

    method Put(item: Item) returns (future: Option<nat>)
      modifies this
      ensures (Contents(), future) == BatchPoolModel.Put(old(Contents()), item)
    {
      if |queue| >= config.maxQueueSize {
        return None;
      }
      var request := Request(item, |futures|);
      futures := futures + [Pending];
      queue := queue + [request];
      accepted := accepted + [request];
      return Some(request.future);
    }

    method BatchTarget(depth: nat) returns (target: int)
      ensures target == Target(config, depth)
    {
      if depth <= 0 {
        target := config.minBatch;
      } else if depth >= config.targetDepth {
        target := config.maxBatch;
      } else {
        var share := depth as real / config.targetDepth as real;
        target := Truncate(config.minBatch as real + share * (config.maxBatch - config.minBatch) as real);
        if config.maxBatch <= target {
          target := config.maxBatch;
        }
        if target < config.minBatch {
          target := config.minBatch;
        }
      }
    }

    method BeginRound()
      modifies this
      ensures Contents() == Begin(old(Contents()))
    {
      if coordinator.Idle? {
        if running {
          var target := BatchTarget(|queue|);
          coordinator := Collecting(target, []);
        } else {
          coordinator := Ended([]);
        }
      }
    }

    method TakeOne()
      modifies this
      ensures Contents() == Take(old(Contents()))
    {
      if coordinator.Collecting? && |coordinator.batch| < coordinator.target && queue != [] {
        var request := queue[0];
        queue := queue[1..];
        coordinator := Collecting(coordinator.target, coordinator.batch + [request]);
      }
    }

    method EndRound()
      modifies this
      ensures Contents() == Dispatch(old(Contents()))
    {
      if coordinator.Collecting? {
        if coordinator.batch != [] {
          batches := batches + [Batch(coordinator.batch, Waiting)];
        }
        coordinator := Idle;
      }
    }

    method AcquireSlot(i: nat)
      modifies this
      ensures Contents() == Acquire(old(Contents()), i)
    {
      if i < |batches| && batches[i].phase.Waiting? && Total(batches, Handled) < config.maxWorkers {
        batches := batches[i := batches[i].(phase := Handling)];
      }
    }

    /** The rest of a dispatch once the handler has replied. */
    method CompleteBatch(i: nat, reply: Reply, elapsed: real)
      modifies this
      ensures Contents() == Complete(old(Contents()), i, reply, elapsed)
    {
      if i >= |batches| || !batches[i].phase.Handling? {
        return;
      }
      var requests := batches[i].requests;
      var n := |requests|;
      var failed := false;
      if reply.Returned? && |reply.results| == n {
        for j := 0 to n
          invariant futures == SettleBatch(old(futures), requests, reply, j)
          invariant Contents() == old(Contents()).(futures := futures)
        {
          SetDone(requests[j].future, Resolved(reply.results[j]));
        }
      } else {
        failed := true;
        var reason := if reply.Raised? then HandlerError(reply.error) else WrongCount(|reply.results|, n);
        for j := 0 to n
          invariant futures == SettleBatch(old(futures), requests, reply, j)
          invariant Contents() == old(Contents()).(futures := futures)
        {
          SetDone(requests[j].future, Rejected(reason));
        }
      }
      batches := batches[i := Batch(requests, Done(reply, elapsed))];
      Record(n, failed, elapsed);
    }

    method SetDone(f: nat, o: Outcome)
      modifies this`futures
      ensures futures == Settle(old(futures), f, o)
    {
      if f < |futures| && futures[f] == Pending {
        futures := futures[f := o];
      }
    }

    method Record(n: nat, failed: bool, elapsed: real)
      modifies this`stats
      ensures stats == Recorded(old(stats), n, failed, elapsed)
    {
      if failed {
        stats := stats.(totalErrors := stats.totalErrors + n);
      }
      var latencies := stats.latencies + [elapsed];
      if |latencies| > KEPT_MAX {
        latencies := latencies[|latencies| - KEPT_AFTER..];
      }
      var b := stats.totalBatches + 1;
      stats := stats.(latencies := latencies, totalRequests := stats.totalRequests + n, totalBatches := b);
      stats := stats.(avgBatchSize := stats.avgBatchSize + (n as real - stats.avgBatchSize) / b as real);
      stats := stats.(avgLatencyMs := stats.avgLatencyMs + (elapsed * 1000.0 - stats.avgLatencyMs) / b as real);
    }

    method Stop()
      modifies this
      ensures Contents() == BatchPoolModel.Stop(old(Contents()))
    {
      running := false;
    }

    method CancelCoordinating()
      modifies this
      ensures Contents() == CancelCoordinator(old(Contents()))
    {
      if !running && !coordinator.Ended? {
        coordinator := Ended(if coordinator.Collecting? then coordinator.batch else []);
      }
    }
  }
}
