/**
The RecordIO reader: reads and chunks of the pipe arrive in any order, and two queues, one of
pending reads and one of buffered records, match them up.
*/
module RecordIO {

  import opened Options

  /** A record is what `deserialize` makes of a chunk of bytes. */
  datatype Record<+T> = Good(value: T) | Bad(error: string)

  /** What the future returned by a read holds once it is settled. */
  datatype Answer<+T> = Item(record: Record<T>) | EndOfFile | Failure(message: string)

  /** What the pipe and the decoder deliver. */
  datatype Chunk<+T> = PipeFailure(message: string) | Eof | Undecodable(message: string) | Decoded(records: seq<Record<T>>)

  datatype Event<+T> = Read | Arrive(chunk: Chunk<T>) | Terminate

  /** Reads are numbered in the order in which they are made. */
  datatype State<+T> = State(
    waiters: seq<nat>,
    records: seq<Record<T>>,
    done: bool,
    error: Option<string>,
    reading: bool,
    made: nat,
    answers: map<nat, Answer<T>>)

  function Start<T>(): State<T> {
    State([], [], false, None, true, 0, map[])
  }

  // ----- the handlers, on values

  function DoRead<T>(s: State<T>): State<T> {
    var k := s.made;
    var t := s.(made := k + 1);
    if s.records != [] then t.(records := s.records[1..], answers := s.answers[k := Item(s.records[0])])
    else if s.error.Some? then t.(answers := s.answers[k := Failure(s.error.value)])
    else if s.done then t.(answers := s.answers[k := EndOfFile])
    else t.(waiters := s.waiters + [k])
  }

  /** Settles every pending read in the same way. */
  function Settle<T>(s: State<T>, answer: Answer<T>): State<T> {
    s.(waiters := [], answers := SetAll(s.answers, s.waiters, answer))
  }

  function SetAll<T>(answers: map<nat, Answer<T>>, ks: seq<nat>, answer: Answer<T>): map<nat, Answer<T>>
    decreases |ks|
  {
    if ks == [] then answers else SetAll(answers[ks[0] := answer], ks[1..], answer)
  }

  lemma {:induction false} SetAllAt<T>(answers: map<nat, Answer<T>>, ks: seq<nat>, answer: Answer<T>, k: nat)
    ensures k in SetAll(answers, ks, answer) <==> k in answers || k in ks
    ensures k in ks ==> SetAll(answers, ks, answer)[k] == answer
    ensures k in answers && k !in ks ==> SetAll(answers, ks, answer)[k] == answers[k]
    decreases |ks|
  {
    if ks != [] {
      SetAllAt(answers[ks[0] := answer], ks[1..], answer, k);
      assert ks == [ks[0]] + ks[1..];
    }
  }

  function Deliver<T>(s: State<T>, record: Record<T>): State<T> {
    if s.waiters != [] then s.(waiters := s.waiters[1..], answers := s.answers[s.waiters[0] := Item(record)])
    else s.(records := s.records + [record])
  }

  function DeliverAll<T>(s: State<T>, records: seq<Record<T>>): State<T> {
    if records == [] then s
    else Deliver(DeliverAll(s, records[..|records| - 1]), records[|records| - 1])
  }

  function Fail<T>(s: State<T>, message: string): State<T> {
    Settle(s.(error := Some(message), reading := false), Failure(message))
  }

  /** A chunk arrives only while a read of the pipe is outstanding. */
  predicate Possible<T>(s: State<T>, e: Event<T>) {
    e.Arrive? ==> s.reading
  }

  function Step<T>(s: State<T>, e: Event<T>): State<T> {
    match e
    case Read => DoRead(s)
    case Terminate => Fail(s, "Reader is terminating")
    case Arrive(chunk) =>
      match chunk
      case PipeFailure(m) => Fail(s, m)
      case Undecodable(m) => Fail(s, m)
      case Eof => Settle(s.(done := true, reading := false), EndOfFile)
      case Decoded(records) => DeliverAll(s, records)
  }

  // ----- runs

  ghost predicate Legal<T>(events: seq<Event<T>>) {
    events == [] ||
    (Legal(events[..|events| - 1]) && Possible(Run(events[..|events| - 1]), events[|events| - 1]))
  }

  ghost function Run<T>(events: seq<Event<T>>): State<T> {
    if events == [] then Start() else Step(Run(events[..|events| - 1]), events[|events| - 1])
  }

  /** Every record that arrived, in order of arrival. */
  function Arrived<T>(events: seq<Event<T>>): seq<Record<T>> {
    if events == [] then []
    else
      var e := events[|events| - 1];
      Arrived(events[..|events| - 1]) + if e.Arrive? && e.chunk.Decoded? then e.chunk.records else []
  }

  function Reads<T>(events: seq<Event<T>>): nat {
    if events == [] then 0
    else Reads(events[..|events| - 1]) + if events[|events| - 1].Read? then 1 else 0
  }

  /** The stream has ended or failed, or the reader is gone. */
  ghost predicate Closed<T>(events: seq<Event<T>>) {
    exists e :: e in events && (e.Terminate? || (e.Arrive? && !e.chunk.Decoded?))
  }

  ghost predicate Ended<T>(events: seq<Event<T>>) {
    exists e :: e in events && e.Arrive? && e.chunk.Eof?
  }

  ghost predicate Failed<T>(events: seq<Event<T>>) {
    exists e :: e in events && (e.Terminate? || (e.Arrive? && (e.chunk.PipeFailure? || e.chunk.Undecodable?)))
  }

  // ----- what every run keeps

  /** The state against what has arrived so far. */
  ghost predicate Inv<T>(s: State<T>, arrived: seq<Record<T>>) {
    var settled := s.made - |s.waiters|;
    var delivered := |arrived| - |s.records|;
    && 0 <= delivered <= settled
    && (s.waiters == [] || s.records == [])
    && (forall i :: 0 <= i < |s.waiters| ==> s.waiters[i] == settled + i)
    && s.records == arrived[delivered..]
    && (forall k: nat :: k in s.answers <==> k < settled)
    && (forall k: nat :: k < delivered ==> s.answers[k] == Item(arrived[k]))
    && (forall k: nat :: delivered <= k < settled ==> !s.answers[k].Item?)
    && (s.reading <==> !s.done && s.error.None?)
    && (s.reading ==> settled == delivered)
    && (!s.reading ==> s.waiters == [])
    && (s.records != [] ==> settled == delivered)
    && (!s.done ==> forall k: nat :: delivered <= k < settled ==> s.answers[k].Failure?)
    && (s.error.None? ==> forall k: nat :: delivered <= k < settled ==> s.answers[k].EndOfFile?)
  }

  lemma InvRead<T>(s: State<T>, arrived: seq<Record<T>>)
    requires Inv(s, arrived)
    ensures Inv(DoRead(s), arrived)
  {
    var delivered := |arrived| - |s.records|;
    if s.records != [] {
      assert s.waiters == [] && s.records[0] == arrived[delivered];
      assert s.records[1..] == arrived[delivered + 1..];
    } else if s.reading {
      assert s.error.None? && !s.done;
    } else {
      assert s.waiters == [] && delivered == |arrived|;
    }
  }

  lemma InvDeliver<T>(s: State<T>, arrived: seq<Record<T>>, record: Record<T>)
    requires Inv(s, arrived) && s.reading
    ensures Inv(Deliver(s, record), arrived + [record]) && Deliver(s, record).reading
  {
  }

  lemma {:induction false} InvDeliverAll<T>(s: State<T>, arrived: seq<Record<T>>, records: seq<Record<T>>)
    requires Inv(s, arrived) && s.reading
    ensures Inv(DeliverAll(s, records), arrived + records) && DeliverAll(s, records).reading
  {
    if records == [] {
      assert arrived + records == arrived;
    } else {
      var n := |records| - 1;
      InvDeliverAll(s, arrived, records[..n]);
      InvDeliver(DeliverAll(s, records[..n]), arrived + records[..n], records[n]);
      assert arrived + records == arrived + records[..n] + [records[n]];
    }
  }

  /** The pending reads are the latest ones. */
  lemma Waiting<T>(s: State<T>, arrived: seq<Record<T>>, k: nat)
    requires Inv(s, arrived)
    ensures k in s.waiters <==> s.made - |s.waiters| <= k < s.made
  {
    var settled := s.made - |s.waiters|;
    if settled <= k < s.made {
      assert s.waiters[k - settled] == k;
    }
  }

  lemma SettledAt<T>(s: State<T>, arrived: seq<Record<T>>, answer: Answer<T>, k: nat)
    requires Inv(s, arrived)
    ensures var t, settled := Settle(s, answer), s.made - |s.waiters|;
      && (k in t.answers <==> k < s.made)
      && (k < settled ==> t.answers[k] == s.answers[k])
      && (settled <= k < s.made ==> t.answers[k] == answer)
  {
    Waiting(s, arrived, k);
    SetAllAt(s.answers, s.waiters, answer, k);
  }

  lemma InvFail<T>(s: State<T>, arrived: seq<Record<T>>, message: string)
    requires Inv(s, arrived)
    ensures Inv(Fail(s, message), arrived)
  {
    InvSettle(s, arrived, Failure(message));
  }

  lemma InvComplete<T>(s: State<T>, arrived: seq<Record<T>>)
    requires Inv(s, arrived) && s.reading
    ensures Inv(Settle(s.(done := true, reading := false), EndOfFile), arrived)
  {
    InvSettle(s, arrived, EndOfFile);
  }

  lemma InvSettle<T>(s: State<T>, arrived: seq<Record<T>>, answer: Answer<T>)
    requires Inv(s, arrived) && !answer.Item? && (s.reading || answer.Failure?)
    ensures var t := Settle(s, answer).(reading := false);
      Inv(if answer.Failure? then t.(error := Some(answer.message)) else t.(done := true), arrived)
  {
    hide SetAll;
    var t := Settle(s, answer);
    forall k: nat
      ensures k in t.answers <==> k < s.made
      ensures k < s.made - |s.waiters| ==> t.answers[k] == s.answers[k]
      ensures s.made - |s.waiters| <= k < s.made ==> t.answers[k] == answer
    {
      SettledAt(s, arrived, answer, k);
    }
  }

  lemma {:induction false} DeliverAllKeeps<T>(s: State<T>, records: seq<Record<T>>)
    ensures var t := DeliverAll(s, records);
      t.made == s.made && t.done == s.done && t.error == s.error && t.reading == s.reading
  {
    if records != [] {
      DeliverAllKeeps(s, records[..|records| - 1]);
    }
  }

  lemma {:induction false} RunFacts<T>(events: seq<Event<T>>)
    requires Legal(events)
    ensures var s := Run(events);
      && Inv(s, Arrived(events)) && s.made == Reads(events)
      && (s.reading <==> !Closed(events)) && (s.done <==> Ended(events)) && (s.error.Some? <==> Failed(events))
  {
    hide Inv, Closed, Ended, Failed;
    if events == [] {
      StartFacts<T>();
    } else {
      var n := |events| - 1;
      var before, e := events[..n], events[n];
      var s, arrived := Run(before), Arrived(before);
      RunFacts(before);
      LastEvent(events);
      match e
      case Read =>
        InvRead(s, arrived);
        assert Arrived(events) == arrived;
      case Terminate =>
        InvFail(s, arrived, "Reader is terminating");
        assert Arrived(events) == arrived;
      case Arrive(chunk) =>
        match chunk
        case PipeFailure(m) => InvFail(s, arrived, m); assert Arrived(events) == arrived;
        case Undecodable(m) => InvFail(s, arrived, m); assert Arrived(events) == arrived;
        case Eof => InvComplete(s, arrived); assert Arrived(events) == arrived;
        case Decoded(records) => InvDeliverAll(s, arrived, records); DeliverAllKeeps(s, records);
    }
  }

  lemma StartFacts<T>()
    ensures Inv(Start<T>(), []) && !Closed<T>([]) && !Ended<T>([]) && !Failed<T>([])
  {
  }

  lemma LastEvent<T>(events: seq<Event<T>>)
    requires events != []
    ensures var before, e := events[..|events| - 1], events[|events| - 1];
      && (Closed(events) <==> Closed(before) || e.Terminate? || (e.Arrive? && !e.chunk.Decoded?))
      && (Ended(events) <==> Ended(before) || (e.Arrive? && e.chunk.Eof?))
      && (Failed(events) <==> Failed(before) || e.Terminate?
                              || (e.Arrive? && (e.chunk.PipeFailure? || e.chunk.Undecodable?)))
  {
    var before, e := events[..|events| - 1], events[|events| - 1];
    assert events == before + [e];
    assert forall x :: x in events <==> x in before || x == e;
  }

  /**
  Delivery over every interleaving of reads and chunks: the k-th read gets the k-th record; a read
  beyond the last record is pending while the stream is open and settled once it is not, and then
  tells how the stream closed.
  */
  lemma DeliveredInOrder<T>(events: seq<Event<T>>, k: nat)
    requires Legal(events) && k < Reads(events)
    ensures var s, arrived := Run(events), Arrived(events);
      && (s.waiters == [] || s.records == [])
      && (k < |arrived| ==> k in s.answers && s.answers[k] == Item(arrived[k]))
      && (k >= |arrived| && !Closed(events) ==> k !in s.answers && k in s.waiters)
      && (k >= |arrived| && Closed(events) ==>
            && k in s.answers && !s.answers[k].Item?
            && (!Ended(events) ==> s.answers[k].Failure?)
            && (!Failed(events) ==> s.answers[k].EndOfFile?))
  {
    RunFacts(events);
    Waiting(Run(events), Arrived(events), k);
  }

  // ----- which answer a late read gets

  /** The events after which nothing more arrives. */
  predicate Closing<T>(e: Event<T>) {
    e.Terminate? || (e.Arrive? && !e.chunk.Decoded?)
  }

  /** What pending reads are told when the stream closes. */
  function ClosingAnswer<T>(e: Event<T>): Answer<T>
    requires Closing(e)
  {
    if e.Terminate? then Failure("Reader is terminating")
    else match e.chunk
      case PipeFailure(m) => Failure(m)
      case Undecodable(m) => Failure(m)
      case Eof => EndOfFile
  }

  /** The message of the latest failure. */
  function LastFailure<T>(events: seq<Event<T>>): Option<string> {
    if events == [] then None
    else
      var e := events[|events| - 1];
      if Closing(e) && ClosingAnswer(e).Failure? then Some(ClosingAnswer(e).message)
      else LastFailure(events[..|events| - 1])
  }

  lemma {:induction false} ErrorIsLast<T>(events: seq<Event<T>>)
    ensures Run(events).error == LastFailure(events)
  {
    if events != [] {
      var n := |events| - 1;
      ErrorIsLast(events[..n]);
      if events[n].Arrive? && events[n].chunk.Decoded? {
        DeliverAllKeeps(Run(events[..n]), events[n].chunk.records);
      }
    }
  }

  lemma DeliverStays<T>(s: State<T>, arrived: seq<Record<T>>, record: Record<T>, k: nat)
    requires Inv(s, arrived) && k in s.answers
    ensures k in Deliver(s, record).answers && Deliver(s, record).answers[k] == s.answers[k]
  {
  }

  lemma {:induction false} DeliverAllStays<T>(s: State<T>, arrived: seq<Record<T>>, records: seq<Record<T>>, k: nat)
    requires Inv(s, arrived) && s.reading && k in s.answers
    ensures k in DeliverAll(s, records).answers && DeliverAll(s, records).answers[k] == s.answers[k]
  {
    if records != [] {
      var n := |records| - 1;
      DeliverAllStays(s, arrived, records[..n], k);
      InvDeliverAll(s, arrived, records[..n]);
      DeliverStays(DeliverAll(s, records[..n]), arrived + records[..n], records[n], k);
    }
  }

  /** An answer once given is never given again. */
  lemma StepStays<T>(s: State<T>, arrived: seq<Record<T>>, e: Event<T>, k: nat)
    requires Inv(s, arrived) && Possible(s, e) && k in s.answers
    ensures k in Step(s, e).answers && Step(s, e).answers[k] == s.answers[k]
  {
    Waiting(s, arrived, k);
    match e
    case Read =>
    case Terminate => SetAllAt(s.answers, s.waiters, Failure("Reader is terminating"), k);
    case Arrive(chunk) =>
      if chunk.Decoded? {
        DeliverAllStays(s, arrived, chunk.records, k);
      } else {
        SetAllAt(s.answers, s.waiters, ClosingAnswer(e), k);
      }
  }

  lemma {:induction false} AnswersStay<T>(events: seq<Event<T>>, i: nat, k: nat)
    requires Legal(events) && i <= |events| && k in Run(events[..i]).answers
    ensures k in Run(events).answers && Run(events).answers[k] == Run(events[..i]).answers[k]
    decreases |events|
  {
    if i == |events| {
      assert events[..i] == events;
    } else {
      var n := |events| - 1;
      assert events[..n][..i] == events[..i];
      AnswersStay(events[..n], i, k);
      RunFacts(events[..n]);
      StepStays(Run(events[..n]), Arrived(events[..n]), events[n], k);
    }
  }

  lemma {:induction false} LegalPrefix<T>(events: seq<Event<T>>, i: nat)
    requires Legal(events) && i <= |events|
    ensures Legal(events[..i]) && (i < |events| ==> Possible(Run(events[..i]), events[i]))
    decreases |events|
  {
    if i == |events| {
      assert events[..i] == events;
    } else {
      var n := |events| - 1;
      if i < n {
        assert events[..n][..i] == events[..i];
        LegalPrefix(events[..n], i);
      }
    }
  }

  lemma RunNext<T>(events: seq<Event<T>>, i: nat)
    requires i < |events|
    ensures Run(events[..i + 1]) == Step(Run(events[..i]), events[i])
    ensures Reads(events[..i + 1]) == Reads(events[..i]) + if events[i].Read? then 1 else 0
  {
    assert events[..i + 1][..i] == events[..i];
  }

  /** A read made after the stream has closed and its records are gone gets the latest failure, or else end-of-file. */
  lemma LateRead<T>(events: seq<Event<T>>, j: nat)
    requires Legal(events) && j < |events| && events[j].Read? && Closed(events[..j])
    requires Reads(events[..j]) >= |Arrived(events[..j])|
    ensures var k := Reads(events[..j]);
      && k in Run(events).answers
      && Run(events).answers[k] == match LastFailure(events[..j]) case Some(m) => Failure(m) case None => EndOfFile
  {
    var p := events[..j];
    LegalPrefix(events, j);
    RunFacts(p);
    ErrorIsLast(p);
    RunNext(events, j);
    var s := Run(p);
    assert s.records == [] && s.made == Reads(p);
    AnswersStay(events, j + 1, Reads(p));
  }

  lemma {:induction false} ReadsGrow<T>(events: seq<Event<T>>, j: nat, c: nat)
    requires j < c <= |events| && events[j].Read?
    ensures Reads(events[..j]) < Reads(events[..c])
    decreases c
  {
    RunNext(events, c - 1);
    if j < c - 1 {
      ReadsGrow(events, j, c - 1);
    }
  }

  lemma ClosingSettles<T>(s: State<T>, e: Event<T>, k: nat)
    requires Closing(e) && k in s.waiters
    ensures k in Step(s, e).answers && Step(s, e).answers[k] == ClosingAnswer(e)
  {
    SetAllAt(s.answers, s.waiters, ClosingAnswer(e), k);
  }

  /** A read that no record reaches before the stream closes is told how it closed. */
  lemma PendingRead<T>(events: seq<Event<T>>, j: nat, c: nat)
    requires Legal(events) && j < c < |events| && events[j].Read? && Closing(events[c]) && !Closed(events[..c])
    requires Reads(events[..j]) >= |Arrived(events[..c])|
    ensures var k := Reads(events[..j]);
      k in Run(events).answers && Run(events).answers[k] == ClosingAnswer(events[c])
  {
    hide Legal, Run, Reads, Arrived, Closed, Ended, Failed, Step;
    var p, k := events[..c], Reads(events[..j]);
    LegalPrefix(events, c);
    ReadsGrow(events, j, c);
    assert p[..j] == events[..j];
    DeliveredInOrder(p, k);
    RunNext(events, c);
    ClosingSettles(Run(p), events[c], k);
    AnswersStay(events, c + 1, k);
  }

  lemma SettleFirst<T>(s: State<T>, answer: Answer<T>)
    requires s.waiters != []
    ensures Settle(s, answer) ==
      Settle(s.(waiters := s.waiters[1..], answers := s.answers[s.waiters[0] := answer]), answer)
  {
  }

  lemma SettleNone<T>(s: State<T>, answer: Answer<T>)
    requires s.waiters == []
    ensures Settle(s, answer) == s
  {
  }

  // ----- the process

  class ReaderProcess<T> {
    var waiters: seq<nat>
    var records: seq<Record<T>>
    var done: bool
    var error: Option<string>
    var reading: bool
    var made: nat
    var answers: map<nat, Answer<T>>

    ghost function View(): State<T>
      reads this
    {
      State(waiters, records, done, error, reading, made, answers)
    }

    constructor ()
      ensures View() == Start()
    {
      waiters, records, done, error, reading, made, answers := [], [], false, None, true, 0, map[];
    }

    method Read()
      modifies this
      ensures View() == DoRead(old(View()))
    {
      var k := made;
      made := made + 1;
      if records != [] {
        answers := answers[k := Item(records[0])];
        records := records[1..];
      } else if error.Some? {
        answers := answers[k := Failure(error.value)];
      } else if done {
        answers := answers[k := EndOfFile];
      } else {
        waiters := waiters + [k];
      }
    }

    method SettleWaiters(answer: Answer<T>)
      modifies this
      ensures View() == Settle(old(View()), answer)
    {
      hide Settle;
      while waiters != []
        invariant Settle(View(), answer) == Settle(old(View()), answer)
        decreases |waiters|
      {
        SettleFirst(View(), answer);
        answers := answers[waiters[0] := answer];
        waiters := waiters[1..];
      }
      SettleNone(View(), answer);
    }

    method FailAll(message: string)
      modifies this
      ensures View() == Fail(old(View()), message)
    {
      error, reading := Some(message), false;
      SettleWaiters(Failure(message));
    }

    method Complete()
      modifies this
      ensures View() == Settle(old(View()).(done := true, reading := false), EndOfFile)
    {
      done, reading := true, false;
      SettleWaiters(EndOfFile);
    }

    /** The continuation of a read of the pipe. */
    method Consume(chunk: Chunk<T>)
      modifies this
      ensures View() == Step(old(View()), Arrive(chunk))
    {
      match chunk {
        case PipeFailure(message) => FailAll(message);
        case Undecodable(message) => FailAll(message);
        case Eof => Complete();
        case Decoded(batch) =>
          for i := 0 to |batch|
            invariant View() == DeliverAll(old(View()), batch[..i])
          {
            if waiters != [] {
              answers := answers[waiters[0] := Item(batch[i])];
              waiters := waiters[1..];
            } else {
              records := records + [batch[i]];
            }
            assert batch[..i + 1][..i] == batch[..i];
          }
          assert batch[..|batch|] == batch;
      }
    }

    method Finalize()
      modifies this
      ensures View() == Step(old(View()), Terminate)
    {
      FailAll("Reader is terminating");
    }
  }

  // ----- transform

  /** The number of good records before the first answer that is not one. */
  function Stop<T>(answers: seq<Answer<T>>): nat {
    if answers == [] || !answers[0].Item? || answers[0].record.Bad? then 0 else 1 + Stop(answers[1..])
  }

  lemma {:induction false} StopIsFirst<T>(answers: seq<Answer<T>>, i: nat)
    requires i <= |answers|
    requires forall k :: 0 <= k < i ==> answers[k].Item? && answers[k].record.Good?
    requires i < |answers| ==> !answers[i].Item? || answers[i].record.Bad?
    ensures Stop(answers) == i
  {
    if i > 0 {
      StopIsFirst(answers[1..], i - 1);
    }
  }

  /**
  Reads until end-of-file, writing each transformed record; `answers` are the answers to the reads,
  and `accepts` tells whether the writer takes the k-th write.
  */
  method Transform<T, U>(answers: seq<Answer<T>>, f: T -> U, accepts: nat -> bool) returns (ok: bool, written: seq<U>)
    requires answers != [] && !answers[|answers| - 1].Item?
    ensures |written| <= Stop(answers) < |answers|
    ensures forall i :: 0 <= i < |written| ==>
      accepts(i) && answers[i].Item? && answers[i].record.Good? && written[i] == f(answers[i].record.value)
    ensures |written| < Stop(answers) ==> !accepts(|written|)
    ensures ok <==> |written| == Stop(answers) && answers[Stop(answers)].EndOfFile?
  {
    var i := 0;
    written := [];
    while true
      invariant i < |answers| && |written| == i
      invariant forall k :: 0 <= k < i ==>
        accepts(k) && answers[k].Item? && answers[k].record.Good? && written[k] == f(answers[k].record.value)
      decreases |answers| - i
    {
      var a := answers[i];
      if !a.Item? || a.record.Bad? {
        StopIsFirst(answers, i);
        return a.EndOfFile?, written;
      }
      if !accepts(i) {
        StopIsAtLeast(answers, i);
        return false, written;
      }
      written := written + [f(a.record.value)];
      i := i + 1;
    }
  }

  lemma {:induction false} StopIsAtLeast<T>(answers: seq<Answer<T>>, i: nat)
    requires i < |answers| && !answers[|answers| - 1].Item?
    requires forall k :: 0 <= k < i ==> answers[k].Item? && answers[k].record.Good?
    ensures i <= Stop(answers) < |answers|
    decreases |answers|
  {
    if answers[0].Item? && answers[0].record.Good? {
      StopIsAtLeast(answers[1..], if i > 0 then i - 1 else 0);
    }
  }

  /**
  A reader that is read until after its stream has closed hands over exactly the records that
  arrived: without a bad record among them, reading stops right after the last one.
  */
  lemma StopOfRun<T>(events: seq<Event<T>>, answers: seq<Answer<T>>)
    requires Legal(events) && Closed(events) && |answers| == Reads(events) > |Arrived(events)|
    requires forall k :: 0 <= k < |answers| ==> k in Run(events).answers && answers[k] == Run(events).answers[k]
    requires forall r :: r in Arrived(events) ==> r.Good?
    ensures Stop(answers) == |Arrived(events)|
    ensures forall i :: 0 <= i < Stop(answers) ==> answers[i] == Item(Arrived(events)[i])
    ensures !Failed(events) ==> answers[Stop(answers)].EndOfFile?
  {
    var arrived := Arrived(events);
    forall k: nat | k < |answers|
      ensures k < |arrived| ==> answers[k] == Item(arrived[k])
      ensures k >= |arrived| ==> !answers[k].Item? && (!Failed(events) ==> answers[k].EndOfFile?)
    {
      DeliveredInOrder(events, k);
    }
    StopIsFirst(answers, |arrived|);
  }
}
