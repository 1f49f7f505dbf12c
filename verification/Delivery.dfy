/**
 Delivery of usage events (packages/cli/canyonos/usage/delivery.py and outbox.py, with the
 store of packages/cli-usage-api/src/usage.repository.ts).

 This module is one sender's run in place; DeliveryProtocol lets senders, recorders,
 crashes and lost answers interleave.
 */
module Delivery {

  type Id = string

  /** A usage event; its id is a fresh random one, also the name of its file. */
  datatype Event = Event(id: Id, payload: string)

  datatype Body = Valid(event: Event) | Malformed

  /** A file of the outbox; the outbox lists its files oldest first. */
  datatype Entry = Entry(name: Id, body: Body)

  const MAX_EVENTS_PER_REQUEST: nat := 25
  const MAX_PENDING_EVENTS: nat := 1000

  function EventOf(file: Entry): seq<Event> {
    if file.body.Valid? then [file.body.event] else []
  }

  function Events(files: seq<Entry>): seq<Event> {
    if files == [] then [] else EventOf(files[0]) + Events(files[1..])
  }

  function Least(a: nat, b: nat): nat {
    if a < b then a else b
  }

  /** The i-th group of 25 events, the last one possibly shorter. */
  function Chunk(events: seq<Event>, i: nat): seq<Event> {
    events[Least(i * MAX_EVENTS_PER_REQUEST, |events|)..Least((i + 1) * MAX_EVENTS_PER_REQUEST, |events|)]
  }

  predicate IsChunk(events: seq<Event>, i: nat, batch: seq<Event>) {
    batch == Chunk(events, i) && 0 < |batch| <= MAX_EVENTS_PER_REQUEST
  }

  /** The requests are the groups in order. */
  ghost predicate AreChunks(events: seq<Event>, sent: seq<seq<Event>>) {
    forall i :: 0 <= i < |sent| ==> IsChunk(events, i, sent[i])
  }

  /** The events from the i-th group on. */
  function From(events: seq<Event>, i: nat): seq<Event> {
    events[Least(i * MAX_EVENTS_PER_REQUEST, |events|)..]
  }

  ghost predicate AllValid(files: seq<Entry>) {
    forall i :: 0 <= i < |files| ==> files[i].body.Valid?
  }

  lemma Regroup(a: seq<Event>, b: seq<Event>, c: seq<Event>)
    ensures (a + b) + c == a + (b + c)
  {}

  lemma EventsOfFront(file: Entry, rest: seq<Entry>)
    ensures Events([file] + rest) == EventOf(file) + Events(rest)
  {
    assert ([file] + rest)[1..] == rest;
  }

  lemma SplitOneMore(file: Entry, a: seq<Entry>, b: seq<Entry>)
    requires Events(a + b) == Events(a) + Events(b)
    ensures Events([file] + a + b) == Events([file] + a) + Events(b)
  {
    hide Events, EventOf;
    assert [file] + a + b == [file] + (a + b);
    EventsOfFront(file, a + b);
    EventsOfFront(file, a);
    Regroup(EventOf(file), Events(a), Events(b));
  }

  lemma {:induction false} EventsSplit(a: seq<Entry>, b: seq<Entry>)
    ensures Events(a + b) == Events(a) + Events(b)
  {
    if a == [] {
      assert a + b == b && Events(a) == [];
    } else {
      hide Events;
      EventsSplit(a[1..], b);
      SplitOneMore(a[0], a[1..], b);
      assert [a[0]] + a[1..] == a;
    }
  }

  lemma {:induction false} ValidCount(files: seq<Entry>)
    requires AllValid(files)
    ensures |Events(files)| == |files|
    ensures forall i :: 0 <= i < |files| ==> Events(files)[i] == files[i].body.event
  {
    if files != [] {
      ValidCount(files[1..]);
    }
  }

  lemma NoEvents(files: seq<Entry>)
    ensures files == [] ==> Events(files) == []
  {}

  lemma ChunkIsFirst(events: seq<Event>, i: nat)
    ensures var rest := From(events, i); var k := Least(MAX_EVENTS_PER_REQUEST, |rest|);
            rest[..k] == Chunk(events, i) && rest[k..] == From(events, i + 1)
  {}

  lemma OneMoreChunk(events: seq<Event>, sent: seq<seq<Event>>, batch: seq<Event>)
    requires AreChunks(events, sent) && IsChunk(events, |sent|, batch)
    ensures AreChunks(events, sent + [batch])
  {
    hide IsChunk;
  }

  lemma ChunkSizes(events: seq<Event>, i: nat)
    ensures |From(events, i)| == |Chunk(events, i)| + |From(events, i + 1)|
    ensures From(events, 0) == events
  {}

  lemma NothingTaken(files: seq<Entry>)
    ensures AllValid([]) && [] + files[0..] == files
  {}

  /** A valid file joins the batch; any other can go without an event being lost. */
  lemma TakeOrDrop(batch: seq<Entry>, file: Entry, rest: seq<Entry>)
    requires AllValid(batch)
    ensures file.body.Valid? ==> AllValid(batch + [file]) && batch + ([file] + rest) == (batch + [file]) + rest
    ensures !file.body.Valid? ==> Events(batch + rest) == Events(batch + ([file] + rest))
  {
    hide Events;
    EventsSplit(batch, [file] + rest);
    EventsOfFront(file, rest);
    EventsSplit(batch, rest);
  }

  /** The first n answers came, and all were 200. */
  predicate AllYes(answers: seq<bool>, n: nat) {
    n <= |answers| && forall i :: 0 <= i < n ==> answers[i]
  }

  lemma NextAnswer(answers: seq<bool>, k: nat, n: nat)
    ensures AllYes(answers, 0)
    ensures AllYes(answers, k) && k < |answers| && answers[k] ==> AllYes(answers, k + 1)
    ensures AllYes(answers, n) && k < n ==> k < |answers| && answers[k]
  {}

  /** The requests one after another. */
  function Joined(sent: seq<seq<Event>>): seq<Event> {
    if sent == [] then [] else Joined(sent[..|sent| - 1]) + sent[|sent| - 1]
  }

  /** The first groups, joined, and what is left after them are all the events there were. */
  lemma {:induction false} ChunksJoin(events: seq<Event>, sent: seq<seq<Event>>, n: nat)
    requires AreChunks(events, sent) && n <= |sent|
    ensures Joined(sent[..n]) + From(events, n) == events
  {
    if n > 0 {
      ChunksJoin(events, sent, n - 1);
      ChunkIsNext(events, n - 1);
      assert sent[..n][..n - 1] == sent[..n - 1] && sent[..n][n - 1] == sent[n - 1];
      assert IsChunk(events, n - 1, sent[n - 1]);
      hide Chunk, From, AreChunks;
      Regroup(Joined(sent[..n - 1]), sent[n - 1], From(events, n));
    }
  }

  lemma ChunkIsNext(events: seq<Event>, i: nat)
    ensures From(events, i) == Chunk(events, i) + From(events, i + 1)
  {}

  /** What requests that are the groups in order come to, when all but perhaps the last are acknowledged. */
  lemma RequestsCover(events: seq<Event>, sent: seq<seq<Event>>, acked: nat)
    requires AreChunks(events, sent) && acked <= |sent| <= acked + 1
    ensures Joined(sent[..acked]) + From(events, acked) == events
    ensures |sent| > acked ==> sent[acked] <= From(events, acked)
    ensures forall i :: 0 <= i < |sent| ==> 0 < |sent[i]| <= 25 && (i + 1 < |sent| ==> |sent[i]| == 25)
  {
    ChunksJoin(events, sent, acked);
    if |sent| > acked {
      assert IsChunk(events, acked, sent[acked]);
      ChunkIsNext(events, acked);
    }
    forall i | 0 <= i < |sent| ensures 0 < |sent[i]| <= 25 && (i + 1 < |sent| ==> |sent[i]| == 25) {
      assert IsChunk(events, i, sent[i]);
      if i + 1 < |sent| {
        assert IsChunk(events, i + 1, sent[i + 1]);
      }
    }
  }

  class Outbox {
    var files: seq<Entry>

    constructor (files: seq<Entry>)
      ensures this.files == files
    {
      this.files := files;
    }

    /**
     `_next_batch`: at most 25 valid files, oldest first. Files before them that hold no
     valid event are deleted, so the batch becomes the front of the outbox.
     */
    method NextBatch() returns (batch: seq<Entry>)
      modifies this
      ensures |batch| <= MAX_EVENTS_PER_REQUEST && AllValid(batch)
      ensures batch <= files && |files| <= |old(files)|
      ensures Events(files) == Events(old(files))
      ensures |batch| < MAX_EVENTS_PER_REQUEST ==> files == batch
    {
      hide Events, AllValid;
      NothingTaken(files);
      batch := [];
      var pending := files;
      var i := 0;
      while i < |pending| && |batch| < MAX_EVENTS_PER_REQUEST
        invariant i <= |pending| && |batch| <= MAX_EVENTS_PER_REQUEST
        invariant |batch| <= i && AllValid(batch)
        invariant files == batch + pending[i..]
        invariant Events(files) == Events(pending)
      {
        var entry := pending[i];
        assert pending[i..] == [entry] + pending[i + 1..];
        TakeOrDrop(batch, entry, pending[i + 1..]);
        if entry.body.Valid? {
          batch := batch + [entry];
        } else {
          files := batch + pending[i + 1..];
        }
        i := i + 1;
      }
    }

    /** Deleting an acknowledged batch, file by file. */
    method DeleteBatch(batch: seq<Entry>)
      requires batch <= files
      modifies this
      ensures files == old(files)[|batch|..]
    {
      for i := 0 to |batch|
        invariant files == old(files)[i..]
      {
        files := files[1..];
      }
    }

    /** One turn of the loop: take a batch, send it, and delete it when the API has stored it. */
    method Turn(answer: bool) returns (batch: seq<Event>, stored: bool)
      modifies this
      ensures |files| <= |old(files)| && (stored ==> |files| < |old(files)|)
      ensures stored == (batch != [] && answer)
      ensures batch == [] ==> files == []
      ensures var events := Events(old(files)); var k := Least(MAX_EVENTS_PER_REQUEST, |events|);
              batch == events[..k] && Events(files) == if stored then events[k..] else events
    {
      var found := NextBatch();
      NoEvents(found);
      hide Events;
      ghost var rest := files[|found|..];
      assert files == found + rest;
      EventsSplit(found, rest);
      NoEvents(rest);
      ValidCount(found);
      batch := Events(found);
      stored := batch != [] && answer;
      if stored {
        DeleteBatch(found);
      }
    }

    /** The same, by the place of the batch among all the events there were. */
    method TurnAt(ghost all: seq<Event>, ghost i: nat, answer: bool) returns (batch: seq<Event>, stored: bool)
      requires Events(files) == From(all, i)
      modifies this
      ensures |files| <= |old(files)| && (stored ==> |files| < |old(files)|)
      ensures stored == (batch != [] && answer) && (batch == [] ==> files == [])
      ensures batch != [] ==> IsChunk(all, i, batch)
      ensures |batch| == |Chunk(all, i)|
      ensures Events(files) == From(all, if stored then i + 1 else i)
    {
      hide Events, Chunk, From;
      ChunkIsFirst(all, i);
      batch, stored := Turn(answer);
    }

    /**
     `_deliver`, with no event added meanwhile. `answers` are the API's answers in turn,
     `onFor` how many rounds reporting stays on. The requests are the waiting events in
     order, 25 at a time; what an answer acknowledged is gone, the rest still waits. It ends at
     the first answer that is not 200, when reporting goes off, or with nothing left.
     */
    method Deliver(answers: seq<bool>, onFor: nat) returns (sent: seq<seq<Event>>, acked: nat)
      modifies this
      ensures acked <= |sent| <= acked + 1 && |sent| <= onFor
      ensures AreChunks(Events(old(files)), sent)
      ensures Joined(sent[..acked]) + Events(files) == Events(old(files))
      ensures |sent| > acked ==> sent[acked] <= Events(files)
      ensures forall i :: 0 <= i < |sent| ==> 0 < |sent[i]| <= 25 && (i + 1 < |sent| ==> |sent[i]| == 25)
      ensures AllYes(answers, acked)
      ensures |sent| > acked ==> acked >= |answers| || !answers[acked]
      ensures |sent| == acked ==> files == [] || acked == onFor
      ensures var n := |Events(old(files))| + 1; onFor >= n && AllYes(answers, n) ==> files == [] && |sent| == acked
    {
      ghost var all := Events(files);
      NoEvents(files);
      ChunkSizes(all, 0);
      sent, acked := [], 0;
      assert AreChunks(all, sent);
      ghost var enough := |all| + 1;
      NextAnswer(answers, 0, enough);
      hide Events, Chunk, IsChunk, AreChunks, From, Least, AllYes, Joined;
      while acked < onFor
        invariant acked == |sent| <= onFor
        invariant AllYes(answers, acked)
        invariant Events(files) == From(all, acked)
        invariant AreChunks(all, sent)
        invariant |From(all, acked)| + acked <= |all|
        decreases |files|
      {
        var answer := acked < |answers| && answers[acked];
        ChunkSizes(all, acked);
        NextAnswer(answers, acked, enough);
        var batch, stored := TurnAt(all, acked, answer);
        if batch == [] {
          RequestsCover(all, sent, acked);
          return;
        }
        OneMoreChunk(all, sent, batch);
        sent := sent + [batch];
        if !stored {
          RequestsCover(all, sent, acked);
          return;
        }
        acked := acked + 1;
      }
      RequestsCover(all, sent, acked);
    }
  }
}
