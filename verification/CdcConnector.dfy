/** The mutable connector of services/cdc_connector.py, tied to CdcModel. The vector collection its
    callbacks write to is a field. */
module CdcConnector {
  import opened Prelude
  import opened StableSort
  import opened CdcModel

  class CDCConnector {
    const config: Config
    const callbacks: Callbacks
    var buffer: seq<Event>
    var store: Store
    ghost var batches: seq<seq<Event>>

    constructor (config: Config, callbacks: Callbacks, store: Store)
      ensures this.config == config && this.callbacks == callbacks
      ensures Contents() == State([], store, [])
    {
      this.config, this.callbacks, this.store := config, callbacks, store;
      buffer, batches := [], [];
    }

    ghost function Contents(): State
      reads this
    {
      State(buffer, store, batches)
    }

    method Ingest(upserts: seq<Event>, vectors: seq<Vector>)
      modifies this`store
      ensures store == IngestAll(config, old(store), upserts, vectors)
    {
      var i := 0;
      while i < |upserts| && i < |vectors|
        invariant i <= |upserts| && i <= |vectors|
        invariant IngestAll(config, store, upserts[i..], vectors[i..]) ==
                  IngestAll(config, old(store), upserts, vectors)
      {
        store := store[VectorId(config, upserts[i]) := Doc(vectors[i], GetMetadata(config, upserts[i]))];
        i := i + 1;
      }
    }

    method Delete(deletes: seq<Event>)
      modifies this`store
      ensures store == DeleteAll(config, old(store), deletes)
    {
      for i := 0 to |deletes|
        invariant store == DeleteAll(config, old(store), deletes[..i])
      {
        assert deletes[..i + 1][..i] == deletes[..i];
        store := store - {VectorId(config, deletes[i])};
      }
      assert deletes[..|deletes|] == deletes;
    }

    method Split(events: seq<Event>) returns (texts: seq<string>, upserts: seq<Event>, deletes: seq<Event>)
      ensures upserts == Upserts(config, events) && texts == Texts(config, upserts) && deletes == Deletes(events)
    {
      texts, upserts, deletes := [], [], [];
      for i := 0 to |events|
        invariant upserts == Upserts(config, events[..i]) && texts == Texts(config, upserts)
        invariant deletes == Deletes(events[..i])
      {
        assert events[..i + 1][..i] == events[..i];
        if IsDelete(events[i]) {
          deletes := deletes + [events[i]];
        } else {
          var text := GetText(config, events[i]);
          if !Blank(text) {
            texts := texts + [text];
            upserts := upserts + [events[i]];
          }
        }
      }
      assert events[..|events|] == events;
    }

    method ProcessBatch(events: seq<Event>)
      modifies this`store
      ensures store == CdcModel.ProcessBatch(config, callbacks, old(store), events)
    {
      if events == [] {
        return;
      }
      var texts, upserts, deletes := Split(events);
      if texts != [] && callbacks.embed.Some? {
        var vectors := callbacks.embed.value(texts);
        if vectors == None {
          return;
        }
        if callbacks.ingest {
          Ingest(upserts, vectors.value);
        }
      }
      if callbacks.delete {
        Delete(deletes);
      }
    }

    method FlushBuffer()
      modifies this
      ensures Contents() == Flush(config, callbacks, old(Contents()))
    {
      if buffer == [] {
        return;
      }
      var batch := Take(buffer, config.batchSize);
      buffer := Drop(buffer, config.batchSize);
      batches := batches + [batch];
      ProcessBatch(batch);
    }

    method EnqueueEvent(e: Event)
      modifies this
      ensures Contents() == Enqueue(config, callbacks, old(Contents()), e)
    {
      buffer := buffer + [e];
      if |buffer| >= config.batchSize {
        FlushBuffer();
      }
    }

    method Stop()
      modifies this
      ensures Contents() == Flush(config, callbacks, old(Contents()))
    {
      FlushBuffer();
    }
  }
}
