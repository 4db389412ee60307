/** Racing writers (apps/api/storage/filesystem.py, `put` and `_publish_directory`): every writer
    prepares a directory of its own, renames it into place if nothing is there, cleans up, and
    reads back. Steps of different writers interleave in any order, and a writer may crash. */
module StorageRace {
  import opened Basics
  import opened StorageModel

  /** Where a writer is in its one `put`. */
  datatype Pc =
    | Idle
    | Begun
    | Writing
    | Written
    | Renamed
    | Reading
    | Judging(stored: Stored)
    | Done(answer: Result<Stored, StorageError>)
    | Crashed

  datatype Writer = Writer(request: Request, pc: Pc, now: Time, temp: Option<Dir>, created: bool)

  /** The order in which the puts took effect. */
  datatype Entry = Entry(writer: nat, now: Time, answer: Result<Stored, StorageError>)

  datatype System = System(objects: Objects, writers: seq<Writer>, log: seq<Entry>)

  datatype Action =
    | Begin(now: Time)
    | MakeTemp
    | WriteContent(n: nat)
    | WriteManifest
    | Rename
    | Cleanup
    | ReadManifest
    | ReadContent
    | Crash

  datatype Step = Step(writer: nat, action: Action)

  function DigestOf(h: Hashing, w: Writer): Digest { h.bytes(w.request.content) }

  /** `os.rename`: the directory appears if there is none; otherwise the temporary one remains. */
  function RenameStep(h: Hashing, s: System, i: nat): System
    requires i < |s.writers| && s.writers[i].temp.Some?
  {
    var w := s.writers[i];
    var d, created := DigestOf(h, w), DigestOf(h, w) !in s.objects;
    var objects := if created then s.objects[d := w.temp.value] else s.objects;
    System(objects,
           s.writers[i := w.(pc := Renamed, created := created, temp := if created then None else w.temp)],
           s.log + [Entry(i, w.now, ReadBack(h, objects, w.request, created))])
  }

  /** The content file grows by up to `n` bytes. */
  function Append(soFar: Bytes, whole: Bytes, n: nat): Bytes {
    whole[..if |soFar| + n <= |whole| then |soFar| + n else |whole|]
  }

  function Next(h: Hashing, s: System, step: Step): System
    requires step.writer < |s.writers|
  {
    var i, w := step.writer, s.writers[step.writer];
    match (step.action, w.pc)
    case (Begin(now), Idle) =>
      if Refused(h, w.request)
      then s.(writers := s.writers[i := w.(pc := Done(Err(Refusal(h, w.request))), now := now)],
              log := s.log + [Entry(i, now, Err(Refusal(h, w.request)))])
      else s.(writers := s.writers[i := w.(pc := Begun, now := now)])
    case (MakeTemp, Begun) =>
      s.(writers := s.writers[i := w.(pc := Writing, temp := Some(Dir(Some([]), None)))])
    case (WriteContent(n), Writing) =>
      if w.temp.Some? && w.temp.value.content.Some?
      then s.(writers := s.writers[i := w.(temp := Some(Dir(Some(Append(w.temp.value.content.value, w.request.content,
        n)), None)))])
      else s
    case (WriteManifest, Writing) =>
      if w.temp.Some? && w.temp.value.content == Some(w.request.content)
      then s.(writers := s.writers[i := w.(pc := Written,
        temp := Some(w.temp.value.(manifest := OwnDir(h, w.request, w.now).manifest)))])
      else s
    case (Rename, Written) => if w.temp.Some? then RenameStep(h, s, i) else s
    case (Cleanup, Renamed) => s.(writers := s.writers[i := w.(pc := Reading, temp := None)])
    case (ReadManifest, Reading) =>
      (match Inspect(h, s.objects, DigestOf(h, w))
       case Err(e) => s.(writers := s.writers[i := w.(pc := Done(Err(e)))])
       case Ok(stored) => s.(writers := s.writers[i := w.(pc := Judging(stored))]))
    case (ReadContent, Judging(stored)) =>
      (match Get(h, s.objects, DigestOf(h, w))
       case Err(e) => s.(writers := s.writers[i := w.(pc := Done(Err(e)))])
       case Ok(content) =>
         if content != w.request.content then s.(writers := s.writers[i := w.(pc := Done(Err(IntegrityError)))])
         else s.(writers := s.writers[i := w.(pc := Done(Judge(w.request, DigestOf(h, w), stored, w.created)))]))
    case (Crash, _) => if w.pc.Done? then s else s.(writers := s.writers[i := w.(pc := Crashed)])
    case _ => s
  }

  // ----- the invariant -----

  /** The rename is behind this writer. */
  predicate Published(w: Writer) {
    w.pc.Renamed? || w.pc.Reading? || w.pc.Judging?
  }

  ghost predicate WriterOk(h: Hashing, objects: Objects, w: Writer) {
    && (w.created ==> DigestOf(h, w) in objects)
    && match w.pc
       case Idle => w.temp.None? && !w.created
       case Begun => w.temp.None? && !w.created && !Refused(h, w.request)
       case Writing =>
         && !w.created && !Refused(h, w.request) && w.temp.Some?
         && w.temp.value.content.Some? && w.temp.value.content.value <= w.request.content && w.temp.value.manifest.None?
       case Written => !w.created && !Refused(h, w.request) && w.temp == Some(OwnDir(h, w.request, w.now))
       case Renamed => DigestOf(h, w) in objects && !Refused(h, w.request) && (w.created ==> w.temp.None?)
       case Reading => DigestOf(h, w) in objects && !Refused(h, w.request) && w.temp.None?
       case Judging(stored) =>
         && DigestOf(h, w) in objects && !Refused(h, w.request) && w.temp.None?
         && Inspect(h, objects, DigestOf(h, w)) == Ok(stored)
       case Done(_) => w.temp.None?
       case Crashed => true
  }

  ghost predicate WritersOk(h: Hashing, s: System) {
    forall i | 0 <= i < |s.writers| :: WriterOk(h, s.objects, s.writers[i])
  }

  /** At most one writer per digest put its directory in place. */
  ghost predicate OneWinner(h: Hashing, s: System) {
    forall i, j | 0 <= i < j < |s.writers| && s.writers[i].created && s.writers[j].created ::
      DigestOf(h, s.writers[i]) != DigestOf(h, s.writers[j])
  }

  /** The objects after the logged puts, each taken as a single step. */
  function After(h: Hashing, start: Objects, writers: seq<Writer>, log: seq<Entry>): Objects
    requires forall e | e in log :: e.writer < |writers|
  {
    if log == [] then start
    else
      var last := log[|log| - 1];
      Put(h, After(h, start, writers, log[..|log| - 1]), writers[last.writer].request, last.now).0
  }

  /** Every logged answer is the answer of the put at that point. */
  ghost predicate Legal(h: Hashing, start: Objects, writers: seq<Writer>, log: seq<Entry>)
    requires forall e | e in log :: e.writer < |writers|
  {
    log == [] ||
    var last := log[|log| - 1];
    && Legal(h, start, writers, log[..|log| - 1])
    && last.answer == Put(h, After(h, start, writers, log[..|log| - 1]), writers[last.writer].request, last.now).1
  }

  ghost predicate LogOwned(s: System) {
    forall e | e in s.log :: e.writer < |s.writers|
  }

  /** Every writer has taken effect at most once: not before its rename, and once after it. */
  ghost predicate LogOnce(s: System) {
    && (forall i, j | 0 <= i < j < |s.log| :: s.log[i].writer != s.log[j].writer)
    && (forall e | e in s.log && e.writer < |s.writers| ::
          var w := s.writers[e.writer]; Published(w) || w.pc.Done? || w.pc.Crashed?)
    && (forall i | 0 <= i < |s.writers| && (Published(s.writers[i]) || s.writers[i].pc.Done?) :: Logged(s.log, i))
  }

  ghost predicate Logged(log: seq<Entry>, i: nat) {
    exists e :: e in log && e.writer == i
  }

  /** The answer that a writer has given, or will give, is the one in the log. */
  ghost predicate Answers(h: Hashing, s: System) {
    forall e | e in s.log && e.writer < |s.writers| ::
      var w := s.writers[e.writer];
      && e.now == w.now
      && (Published(w) ==> e.answer == ReadBack(h, s.objects, w.request, w.created))
      && (w.pc.Done? ==> e.answer == w.pc.answer)
  }

  ghost predicate Inv(h: Hashing, start: Objects, s: System) {
    && Healthy(h, s.objects) && Grows(start, s.objects)
    && WritersOk(h, s) && OneWinner(h, s)
    && LogOwned(s) && LogOnce(s) && Answers(h, s)
    && Legal(h, start, s.writers, s.log) && After(h, start, s.writers, s.log) == s.objects
  }

  /** Some healthy store, writers that have not begun. */
  ghost predicate Initial(h: Hashing, s: System) {
    Healthy(h, s.objects) && s.log == [] && forall w | w in s.writers :: w.pc == Idle && w.temp.None? && !w.created
  }

  lemma InitialInv(h: Hashing, s: System)
    requires Initial(h, s)
    ensures Inv(h, s.objects, s)
  {
    forall i | 0 <= i < |s.writers| ensures WriterOk(h, s.objects, s.writers[i]) { assert s.writers[i] in s.writers; }
    forall i | 0 <= i < |s.writers|
      ensures !Published(s.writers[i]) && !s.writers[i].pc.Done? && !s.writers[i].created
    {
      assert s.writers[i] in s.writers;
    }
  }

  // ----- each step keeps it -----

  /** Only `Rename` changes the visible objects. */
  lemma NextGrows(h: Hashing, s: System, step: Step)
    requires step.writer < |s.writers|
    ensures Grows(s.objects, Next(h, s, step).objects)
    ensures s.log <= Next(h, s, step).log && |Next(h, s, step).writers| == |s.writers|
    ensures forall i | 0 <= i < |s.writers| :: Next(h, s, step).writers[i].request == s.writers[i].request
    ensures forall i | 0 <= i < |s.writers| && i != step.writer :: Next(h, s, step).writers[i] == s.writers[i]
    ensures !(step.action.Rename? && s.writers[step.writer].pc.Written?) ==> Next(h, s, step).objects == s.objects
  {
  }

  lemma ReadBackStable(h: Hashing, objects: Objects, objects': Objects, r: Request, created: bool)
    requires Grows(objects, objects') && h.bytes(r.content) in objects
    ensures ReadBack(h, objects', r, created) == ReadBack(h, objects, r, created)
    ensures Inspect(h, objects', h.bytes(r.content)) == Inspect(h, objects, h.bytes(r.content))
  {
  }

  lemma OtherWriter(h: Hashing, objects: Objects, objects': Objects, w: Writer)
    requires WriterOk(h, objects, w) && Grows(objects, objects')
    ensures WriterOk(h, objects', w)
  {
    hide ReadBack, OwnDir, Refused;
    if DigestOf(h, w) in objects { ReadBackStable(h, objects, objects', w.request, w.created); }
  }

  lemma StepWriter(h: Hashing, s: System, step: Step)
    requires step.writer < |s.writers| && WriterOk(h, s.objects, s.writers[step.writer])
    ensures WriterOk(h, Next(h, s, step).objects, Next(h, s, step).writers[step.writer])
  {
    hide ReadBack, Judge, Get, Inspect, OwnManifest;
    var w := s.writers[step.writer];
    if step.action.Begin? && w.pc.Idle? {
    } else {
      hide Refused;
    }
  }

  /** What appears in place is complete. */
  lemma StepVisible(h: Hashing, s: System, step: Step)
    requires step.writer < |s.writers| && WriterOk(h, s.objects, s.writers[step.writer]) && Healthy(h, s.objects)
    ensures Healthy(h, Next(h, s, step).objects)
  {
    var w := s.writers[step.writer];
    NextGrows(h, s, step);
    if step.action.Rename? && w.pc.Written? {
      OwnIsIntact(h, w.request, w.now);
      hide Intact, ReadBack, OwnDir;
    } else {
      hide Next, Intact;
    }
  }

  lemma StepWinner(h: Hashing, s: System, step: Step)
    requires step.writer < |s.writers| && WritersOk(h, s) && OneWinner(h, s)
    ensures OneWinner(h, Next(h, s, step))
  {
    var i, s' := step.writer, Next(h, s, step);
    NextGrows(h, s, step);
    assert s'.writers[i].created ==> s.writers[i].created || DigestOf(h, s.writers[i]) !in s.objects by {
      StepCreated(h, s, step);
    }
    hide Next, Grows;
    forall j | 0 <= j < |s.writers| && s.writers[j].created ensures DigestOf(h, s.writers[j]) in s.objects {
      assert WriterOk(h, s.objects, s.writers[j]);
    }
    hide WritersOk, WriterOk;
  }

  lemma StepCreated(h: Hashing, s: System, step: Step)
    requires step.writer < |s.writers|
    ensures Next(h, s, step).writers[step.writer].created ==>
      s.writers[step.writer].created || DigestOf(h, s.writers[step.writer]) !in s.objects
  {
    hide ReadBack, OwnDir, Refused, Inspect, Get, Judge;
  }

  lemma {:induction false} SameRequests(h: Hashing, start: Objects, writers: seq<Writer>, writers': seq<Writer>,
        log: seq<Entry>)
    requires |writers'| == |writers| && (forall i | 0 <= i < |writers| :: writers'[i].request == writers[i].request)
    requires forall e | e in log :: e.writer < |writers|
    ensures After(h, start, writers', log) == After(h, start, writers, log)
    ensures Legal(h, start, writers', log) == Legal(h, start, writers, log)
    decreases |log|
  {
    if log != [] { SameRequests(h, start, writers, writers', log[..|log| - 1]); }
  }

  lemma LogAppend(h: Hashing, start: Objects, writers: seq<Writer>, log: seq<Entry>, e: Entry)
    requires (forall x | x in log :: x.writer < |writers|) && e.writer < |writers|
    ensures forall x | x in log + [e] :: x.writer < |writers|
    ensures After(h, start, writers, log + [e])
        == Put(h, After(h, start, writers, log), writers[e.writer].request, e.now).0
    ensures Legal(h, start, writers, log + [e]) <==>
      Legal(h, start, writers, log)
        && e.answer == Put(h, After(h, start, writers, log), writers[e.writer].request, e.now).1
  {
    hide Put;
    assert (log + [e])[..|log + [e]| - 1] == log;
  }

  lemma StepSilent(h: Hashing, s: System, step: Step)
    requires step.writer < |s.writers| && Next(h, s, step).log == s.log
    ensures Next(h, s, step).objects == s.objects
  {
    hide ReadBack, OwnDir, Refused, Inspect, Get, Judge;
  }

  /** The step that takes effect appends what the put, as a single step, would do and answer. */
  lemma StepLog(h: Hashing, start: Objects, s: System, step: Step)
    requires step.writer < |s.writers| && WriterOk(h, s.objects, s.writers[step.writer])
    requires LogOwned(s) && Legal(h, start, s.writers, s.log) && After(h, start, s.writers, s.log) == s.objects
    ensures var s' := Next(h, s, step);
      LogOwned(s') && Legal(h, start, s'.writers, s'.log) && After(h, start, s'.writers, s'.log) == s'.objects
  {
    hide Put, WriterOk, Next, Legal, After, Grows;
    var s' := Next(h, s, step);
    NextGrows(h, s, step);
    SameRequests(h, start, s.writers, s'.writers, s.log);
    if s'.log == s.log {
      StepSilent(h, s, step);
    } else {
      StepEffect(h, s, step);
      var e := s'.log[|s.log|];
      assert s'.log == s.log + [e];
      LogAppend(h, start, s'.writers, s.log, e);
    }
  }

  lemma StepEffect(h: Hashing, s: System, step: Step)
    requires step.writer < |s.writers| && WriterOk(h, s.objects, s.writers[step.writer])
    requires Next(h, s, step).log != s.log
    ensures var s', r := Next(h, s, step), s.writers[step.writer].request;
      && |s'.log| == |s.log| + 1
      && s'.log[|s.log|].writer == step.writer && s'.log[|s.log|].now == s'.writers[step.writer].now
      && (s'.objects, s'.log[|s.log|].answer) == Put(h, s.objects, r, s'.log[|s.log|].now)
    ensures (s.writers[step.writer].pc.Idle? && Next(h, s, step).writers[step.writer].pc.Done?)
         || (s.writers[step.writer].pc.Written? && Next(h, s, step).writers[step.writer].pc.Renamed?)
  {
    hide ReadBack, Inspect, Get, Judge;
  }

  lemma MoreLog(log: seq<Entry>, e: Entry)
    ensures forall x :: x in log + [e] <==> x in log || x == e
    ensures forall i: nat :: Logged(log + [e], i) <==> Logged(log, i) || e.writer == i
  {
    forall i: nat ensures Logged(log + [e], i) <==> Logged(log, i) || e.writer == i {
      if Logged(log, i) { var x :| x in log && x.writer == i; assert x in log + [e]; }
      if e.writer == i { assert (log + [e])[|log|] == e; }
    }
  }

  lemma StepOnce(h: Hashing, s: System, step: Step)
    requires step.writer < |s.writers| && WriterOk(h, s.objects, s.writers[step.writer]) && LogOwned(s) && LogOnce(s)
    ensures LogOnce(Next(h, s, step))
  {
    var i, s' := step.writer, Next(h, s, step);
    NextGrows(h, s, step);
    StepPc(h, s, step);
    if s'.log != s.log {
      StepEffect(h, s, step);
      MoreLog(s.log, s'.log[|s.log|]);
      assert s'.log == s.log + [s'.log[|s.log|]];
      hide Logged, Next, Grows;
      assert !Logged(s.log, i) by { NotLogged(s, i); }
      assert forall j | 0 <= j < |s.log| :: s.log[j].writer != i by { NoEntry(s.log, i); }
    } else {
      hide Logged, Next, Grows;
    }
  }

  lemma NotLogged(s: System, i: nat)
    requires i < |s.writers| && LogOnce(s) && (s.writers[i].pc.Idle? || s.writers[i].pc.Written?)
    ensures !Logged(s.log, i)
  {
  }

  lemma NoEntry(log: seq<Entry>, i: nat)
    requires !Logged(log, i)
    ensures forall j | 0 <= j < |log| :: log[j].writer != i
  {
  }

  /** Without a new entry, a writer stays on its side of the moment it takes effect. */
  lemma StepPc(h: Hashing, s: System, step: Step)
    requires step.writer < |s.writers|
    ensures var w, w' := s.writers[step.writer], Next(h, s, step).writers[step.writer];
      && (Published(w) || w.pc.Done? || w.pc.Crashed? ==> Published(w') || w'.pc.Done? || w'.pc.Crashed?)
      && (Next(h, s, step).log == s.log && (Published(w') || w'.pc.Done?) ==> Published(w) || w.pc.Done?)
  {
    hide ReadBack, OwnDir, Refused, Inspect, Get, Judge;
  }

  /** The read-back ends in the answer that was fixed at the rename. */
  lemma StepAnswer(h: Hashing, s: System, step: Step)
    requires step.writer < |s.writers| && WriterOk(h, s.objects, s.writers[step.writer])
        && Next(h, s, step).log == s.log
    ensures var w, w' := s.writers[step.writer], Next(h, s, step).writers[step.writer];
      && Next(h, s, step).objects == s.objects
      && (Published(w') ==> Published(w) && w'.created == w.created)
      && (w'.pc.Done? && !w.pc.Done? ==> Published(w) && w'.pc.answer == ReadBack(h, s.objects, w.request, w.created))
      && (w.pc.Done? ==> w' == w)
      && (Published(w) || w.pc.Done? || w.pc.Crashed? ==> w'.now == w.now)
  {
    hide OwnDir, Refused;
  }

  lemma StepAnswers(h: Hashing, s: System, step: Step)
    requires step.writer < |s.writers| && WritersOk(h, s) && LogOwned(s) && LogOnce(s) && Answers(h, s)
    ensures Answers(h, Next(h, s, step))
  {
    var i, s' := step.writer, Next(h, s, step);
    NextGrows(h, s, step);
    forall e | e in s'.log && e.writer < |s'.writers|
      ensures var w := s'.writers[e.writer];
        && e.now == w.now && (Published(w) ==> e.answer == ReadBack(h, s'.objects, w.request, w.created))
        && (w.pc.Done? ==> e.answer == w.pc.answer)
    {
      AnswerOf(h, s, step, e);
    }
    hide Next, ReadBack, Grows;
  }

  lemma AnswerOf(h: Hashing, s: System, step: Step, e: Entry)
    requires step.writer < |s.writers| && WritersOk(h, s) && LogOwned(s) && LogOnce(s) && Answers(h, s)
    requires e in Next(h, s, step).log && e.writer < |s.writers|
    ensures |Next(h, s, step).writers| == |s.writers|
    ensures var w := Next(h, s, step).writers[e.writer];
      && e.now == w.now && (Published(w) ==> e.answer == ReadBack(h, Next(h, s, step).objects, w.request, w.created))
      && (w.pc.Done? ==> e.answer == w.pc.answer)
  {
    var i, s' := step.writer, Next(h, s, step);
    NextGrows(h, s, step);
    assert WriterOk(h, s.objects, s.writers[i]) && WriterOk(h, s.objects, s.writers[e.writer]);
    if s'.log == s.log {
      StepAnswer(h, s, step);
      hide Next, ReadBack, WriterOk, WritersOk;
    } else {
      StepEffect(h, s, step);
      var added := s'.log[|s.log|];
      MoreLog(s.log, added);
      assert s'.log == s.log + [added];
      if e == added {
        NewAnswer(h, s, step);
      } else {
        assert e in s.log;
        EntryElsewhere(s, e, i);
        var w := s.writers[e.writer];
        assert s'.writers[e.writer] == w;
        if Published(w) { ReadBackStable(h, s.objects, s'.objects, w.request, w.created); }
      }
    }
  }

  lemma EntryElsewhere(s: System, e: Entry, i: nat)
    requires i < |s.writers| && e in s.log && LogOnce(s) && e.writer < |s.writers|
        && (s.writers[i].pc.Idle? || s.writers[i].pc.Written?)
    ensures e.writer != i
  {
  }

  lemma NewAnswer(h: Hashing, s: System, step: Step)
    requires step.writer < |s.writers| && WriterOk(h, s.objects, s.writers[step.writer])
        && Next(h, s, step).log != s.log
    ensures var s' := Next(h, s, step);
      var w := s'.writers[step.writer];
      && |s'.log| == |s.log| + 1
      && (Published(w) ==> s'.log[|s.log|].answer == ReadBack(h, s'.objects, w.request, w.created))
      && (w.pc.Done? ==> s'.log[|s.log|].answer == w.pc.answer)
  {
    hide ReadBack, Inspect, Get, Judge;
  }

  lemma NextKeeps(h: Hashing, start: Objects, s: System, step: Step)
    requires Inv(h, start, s) && step.writer < |s.writers|
    ensures Inv(h, start, Next(h, s, step))
  {
    hide WriterOk, Next, OneWinner, LogOnce, Answers, Legal, After, Healthy;
    var s' := Next(h, s, step);
    NextGrows(h, s, step);
    assert WriterOk(h, s.objects, s.writers[step.writer]);
    StepWriter(h, s, step);
    StepVisible(h, s, step);
    StepWinner(h, s, step);
    StepLog(h, start, s, step);
    StepOnce(h, s, step);
    StepAnswers(h, s, step);
    forall i | 0 <= i < |s'.writers| ensures WriterOk(h, s'.objects, s'.writers[i]) {
      if i != step.writer { OtherWriter(h, s.objects, s'.objects, s.writers[i]); }
    }
  }

  // ----- runs -----

  function Run(h: Hashing, s: System, steps: seq<Step>): (t: System)
    requires forall x | x in steps :: x.writer < |s.writers|
    ensures |t.writers| == |s.writers|
    decreases |steps|
  {
    if steps == [] then s
    else
      assert steps[0] in steps;
      NextGrows(h, s, steps[0]);
      Run(h, Next(h, s, steps[0]), steps[1..])
  }

  lemma {:induction false} RunKeeps(h: Hashing, start: Objects, s: System, steps: seq<Step>)
    requires Inv(h, start, s) && forall x | x in steps :: x.writer < |s.writers|
    ensures Inv(h, start, Run(h, s, steps))
    ensures Grows(s.objects, Run(h, s, steps).objects) && s.log <= Run(h, s, steps).log
    ensures forall i | 0 <= i < |s.writers| :: Run(h, s, steps).writers[i].request == s.writers[i].request
    decreases |steps|
  {
    if steps != [] {
      assert steps[0] in steps;
      NextKeeps(h, start, s, steps[0]);
      NextGrows(h, s, steps[0]);
      hide Inv, Next;
      RunKeeps(h, start, Next(h, s, steps[0]), steps[1..]);
    }
  }

  /** Over every interleaving: whatever is visible is complete, and stays as it is. */
  lemma NothingPartialIsVisible(h: Hashing, s: System, before: seq<Step>, after: seq<Step>)
    requires Initial(h, s) && forall x | x in before + after :: x.writer < |s.writers|
    ensures forall x | x in before :: x.writer < |s.writers|
    ensures Healthy(h, Run(h, s, before).objects)
    ensures Grows(s.objects, Run(h, s, before).objects)
    ensures Grows(Run(h, s, before).objects, Run(h, s, before + after).objects)
    ensures OneWinner(h, Run(h, s, before))
  {
    hide Inv, Run, Initial, OneWinner, Healthy, Grows;
    forall x | x in before ensures x in before + after {}
    forall x | x in after ensures x in before + after {}
    InitialInv(h, s);
    RunKeeps(h, s.objects, s, before);
    InvSafe(h, s.objects, Run(h, s, before));
    RunKeeps(h, s.objects, Run(h, s, before), after);
    RunSplit(h, s, before, after);
  }

  lemma InvSafe(h: Hashing, start: Objects, s: System)
    requires Inv(h, start, s)
    ensures Healthy(h, s.objects) && OneWinner(h, s)
  {
  }

  lemma {:induction false} RunSplit(h: Hashing, s: System, before: seq<Step>, after: seq<Step>)
    requires (forall x | x in before :: x.writer < |s.writers|) && (forall x | x in after :: x.writer < |s.writers|)
    ensures forall x | x in before + after :: x.writer < |s.writers|
    ensures Run(h, s, before + after) == Run(h, Run(h, s, before), after)
    decreases |before|
  {
    if before == [] {
      assert before + after == after;
    } else {
      assert before[0] in before;
      NextGrows(h, s, before[0]);
      assert (before + after)[0] == before[0] && (before + after)[1..] == before[1..] + after;
      RunSplit(h, Next(h, s, before[0]), before[1..], after);
    }
  }

  /** Linearizability: the log of a run is a sequence of whole puts that leads from the initial
      objects to the visible ones, answers everyone who has an answer as they were answered,
      and lists a put between its beginning and its end. */
  lemma PutsAreLinearizable(h: Hashing, s: System, steps: seq<Step>)
    requires Initial(h, s) && forall x | x in steps :: x.writer < |s.writers|
    ensures var t := Run(h, s, steps);
      && LogOwned(t) && Legal(h, s.objects, t.writers, t.log) && After(h, s.objects, t.writers, t.log) == t.objects
      && (forall i, j | 0 <= i < j < |t.log| :: t.log[i].writer != t.log[j].writer)
      && (forall i | 0 <= i < |t.writers| && t.writers[i].pc.Done? ::
         Entry(i, t.writers[i].now, t.writers[i].pc.answer) in t.log)
      && (forall e | e in t.log :: !t.writers[e.writer].pc.Idle? && !t.writers[e.writer].pc.Begun?)
  {
    hide WriterOk, Next, OneWinner, Legal, After, Healthy, Initial, Run;
    InitialInv(h, s);
    RunKeeps(h, s.objects, s, steps);
    var t := Run(h, s, steps);
    forall i | 0 <= i < |t.writers| && t.writers[i].pc.Done?
      ensures Entry(i, t.writers[i].now, t.writers[i].pc.answer) in t.log
    {
      assert Logged(t.log, i);
      var e :| e in t.log && e.writer == i;
      assert e == Entry(i, t.writers[i].now, t.writers[i].pc.answer);
    }
  }

  // ----- nobody waits for anybody -----

  /** How many steps of its own a writer is from its answer, at most. */
  function Left(w: Writer): nat {
    match w.pc
    case Idle => 8
    case Begun => 7
    case Writing => if w.temp.Some? && w.temp.value.content == Some(w.request.content) then 5 else 6
    case Written => 4
    case Renamed => 3
    case Reading => 2
    case Judging(_) => 1
    case _ => 0
  }

  function OwnAction(w: Writer): Action {
    match w.pc
    case Idle => Begin(w.now)
    case Begun => MakeTemp
    case Writing => if Left(w) == 5 then WriteManifest else WriteContent(|w.request.content|)
    case Written => Rename
    case Renamed => Cleanup
    case Reading => ReadManifest
    case _ => ReadContent
  }

  lemma OwnStepAdvances(h: Hashing, s: System, i: nat)
    requires i < |s.writers| && WriterOk(h, s.objects, s.writers[i])
    requires !s.writers[i].pc.Done? && !s.writers[i].pc.Crashed?
    ensures var w' := Next(h, s, Step(i, OwnAction(s.writers[i]))).writers[i];
      Left(w') < Left(s.writers[i]) && !w'.pc.Crashed?
  {
    hide Refused, Refusal, ReadBack, Inspect, Get, Judge, OwnManifest;
    var whole := s.writers[i].request.content;
    assert whole[..|whole|] == whole;
  }

  /** However others have interfered so far, crashed halfway or overtaken it, a writer that has not crashed comes to
      its answer in at most eight steps of its own, without anybody else moving. */
  lemma {:induction false} NobodyIsStuck(h: Hashing, start: Objects, s: System, i: nat) returns (steps: seq<Step>)
    requires Inv(h, start, s) && i < |s.writers| && !s.writers[i].pc.Crashed?
    ensures |steps| <= Left(s.writers[i]) <= 8 && forall x | x in steps :: x.writer == i
    ensures Run(h, s, steps).writers[i].pc.Done?
    decreases Left(s.writers[i])
  {
    hide Next, WriterOk, Inv, Run, OwnAction;
    if s.writers[i].pc.Done? {
      steps := [];
      RunOne(h, s, steps);
    } else {
      var step := Step(i, OwnAction(s.writers[i]));
      WriterIsOk(h, start, s, i);
      OwnStepAdvances(h, s, i);
      NextKeeps(h, start, s, step);
      NextGrows(h, s, step);
      var rest := NobodyIsStuck(h, start, Next(h, s, step), i);
      steps := [step] + rest;
      assert steps[0] == step && steps[1..] == rest;
      RunOne(h, s, steps);
    }
  }

  lemma RunOne(h: Hashing, s: System, steps: seq<Step>)
    requires forall x | x in steps :: x.writer < |s.writers|
    ensures steps == [] ==> Run(h, s, steps) == s
    ensures steps != [] ==> steps[0].writer < |s.writers| && |Next(h, s, steps[0]).writers| == |s.writers|
                            && Run(h, s, steps) == Run(h, Next(h, s, steps[0]), steps[1..])
  {
    if steps != [] {
      assert steps[0] in steps;
      NextGrows(h, s, steps[0]);
    }
  }

  lemma WriterIsOk(h: Hashing, start: Objects, s: System, i: nat)
    requires Inv(h, start, s) && i < |s.writers|
    ensures WriterOk(h, s.objects, s.writers[i])
  {
    hide WriterOk;
  }

  /** A put that ended before another began is listed before it, for good. */
  lemma LogRespectsRealTime(h: Hashing, s: System, before: seq<Step>, after: seq<Step>, i: nat, j: nat)
    requires Initial(h, s) && forall x | x in before + after :: x.writer < |s.writers|
    requires i < |s.writers| && j < |s.writers|
    requires forall x | x in before :: x.writer < |s.writers|
    requires Run(h, s, before).writers[i].pc.Done? && Run(h, s, before).writers[j].pc.Idle?
    ensures exists n: nat :: n < |Run(h, s, before + after).log| && Run(h, s, before + after).log[n].writer == i
              && forall m | 0 <= m < |Run(h, s, before + after).log| && Run(h, s, before + after).log[m].writer == j ::
                 n < m
  {
    hide WriterOk, Next, OneWinner, Legal, After, Healthy, Initial, Answers, WritersOk, Run;
    forall x | x in after ensures x in before + after {}
    InitialInv(h, s);
    RunKeeps(h, s.objects, s, before);
    var t := Run(h, s, before);
    RunKeeps(h, s.objects, t, after);
    RunSplit(h, s, before, after);
    assert Logged(t.log, i);
    var e :| e in t.log && e.writer == i;
    var n: nat :| n < |t.log| && t.log[n] == e;
    NotLogged(t, j);
    NoEntry(t.log, j);
    assert Run(h, s, before + after).log[n] == e;
  }

  /** All successful puts of the same bytes return the same stored object, and it is there to
      be read with those bytes. */
  lemma SuccessesAgree(h: Hashing, s: System, steps: seq<Step>, i: nat, j: nat)
    requires Injective(h) && Initial(h, s) && forall x | x in steps :: x.writer < |s.writers|
    requires i < |s.writers| && j < |s.writers| && s.writers[i].request.content == s.writers[j].request.content
    requires Run(h, s, steps).writers[i].pc.Done? && Run(h, s, steps).writers[i].pc.answer.Ok?
    requires Run(h, s, steps).writers[j].pc.Done? && Run(h, s, steps).writers[j].pc.answer.Ok?
    ensures Run(h, s, steps).writers[i].pc.answer == Run(h, s, steps).writers[j].pc.answer
    ensures var t, d := Run(h, s, steps), h.bytes(s.writers[i].request.content);
      Inspect(h, t.objects, d) == t.writers[i].pc.answer && Get(h, t.objects, d) == Ok(s.writers[i].request.content)
  {
    hide WriterOk, Next, OneWinner, Healthy, Initial, Run, Legal, After, Put;
    PutsAreLinearizable(h, s, steps);
    InitialInv(h, s);
    RunKeeps(h, s.objects, s, steps);
    var t := Run(h, s, steps);
    StartHealthy(h, s);
    SuccessIsStored(h, s.objects, t.writers, t.log, Entry(i, t.writers[i].now, t.writers[i].pc.answer));
    SuccessIsStored(h, s.objects, t.writers, t.log, Entry(j, t.writers[j].now, t.writers[j].pc.answer));
  }

  lemma StartHealthy(h: Hashing, s: System)
    requires Initial(h, s)
    ensures Healthy(h, s.objects)
  {
  }

  lemma {:induction false} SuccessIsStored(h: Hashing, start: Objects, writers: seq<Writer>, log: seq<Entry>, e: Entry)
    requires Injective(h) && Healthy(h, start) && (forall x | x in log :: x.writer < |writers|)
    requires Legal(h, start, writers, log) && e in log && e.answer.Ok?
    ensures Healthy(h, After(h, start, writers, log))
    ensures var d := h.bytes(writers[e.writer].request.content);
      && Inspect(h, After(h, start, writers, log), d) == e.answer
      && Get(h, After(h, start, writers, log), d) == Ok(writers[e.writer].request.content)
    decreases |log|
  {
    hide Injective, Healthy, Put, Inspect, Get, Grows;
    var rest, last := log[..|log| - 1], log[|log| - 1];
    var r := writers[last.writer].request;
    AfterHealthy(h, start, writers, rest);
    var objects := After(h, start, writers, rest);
    PutKeeps(h, objects, r, last.now);
    if e == last {
      PutAnswers(h, objects, r, last.now);
      PutPublishes(h, objects, r, last.now);
    } else {
      var k :| 0 <= k < |log| && log[k] == e;
      assert rest[k] == e;
      SuccessIsStored(h, start, writers, rest, e);
      ReadsGrow(h, objects, Put(h, objects, r, last.now).0, h.bytes(writers[e.writer].request.content));
    }
  }

  lemma PutPublishes(h: Hashing, objects: Objects, r: Request, now: Time)
    ensures !Refused(h, r) ==> Put(h, objects, r, now).0 == Publish(h, objects, r, now)
  {
  }

  lemma ReadsGrow(h: Hashing, objects: Objects, objects': Objects, d: Digest)
    requires Grows(objects, objects') && Inspect(h, objects, d).Ok?
    ensures Inspect(h, objects', d) == Inspect(h, objects, d) && Get(h, objects', d) == Get(h, objects, d)
  {
  }

  lemma {:induction false} AfterHealthy(h: Hashing, start: Objects, writers: seq<Writer>, log: seq<Entry>)
    requires Healthy(h, start) && forall x | x in log :: x.writer < |writers|
    ensures Healthy(h, After(h, start, writers, log))
    decreases |log|
  {
    if log != [] {
      AfterHealthy(h, start, writers, log[..|log| - 1]);
      hide Healthy;
      var last := log[|log| - 1];
      PutKeeps(h, After(h, start, writers, log[..|log| - 1]), writers[last.writer].request, last.now);
    }
  }
}
