/**
 Any number of concurrent calls that load a secret file or create it, interleaved system call by
 system call: short writes and reads, failures and stops anywhere. The file is written under a
 pending name of its own and appears at its path by a hard link.
 */
module SecretFile {
  import opened Bytes
  import opened Errors

  const SECRET_SIZE := 32

  type Secret = s: seq<byte> | |s| == SECRET_SIZE witness seq(SECRET_SIZE, _ => 0)

  datatype Name = Target | Pending(suffix: nat)

  /** Directory entries, and the contents of the files they refer to. */
  datatype Files = Files(names: map<Name, nat>, contents: map<nat, seq<byte>>)

  /** The system call a thread makes next. */
  datatype Stage =
    | Looking
    | Generating
    | Creating(secret: Secret)
    | Writing(secret: Secret, name: Name, file: nat, written: nat)
    | Linking(secret: Secret, name: Name, file: nat)
    | Cleaning(secret: Secret, name: Name)
    | Discarding(name: Name, taken: bool)
    | Opening
    | Reading(file: nat, got: seq<byte>)
    | Finished(result: Result<Secret, CoreError>)
    | Stopped

  datatype World = World(fs: Files, threads: map<nat, Stage>)

  /**
   What the environment decides for one call: whether it fails, how many bytes it moves, which name and
   secret are drawn.
   */
  datatype Choice = Choice(fails: bool, count: nat, suffix: nat, file: nat, secret: Secret)

  datatype Event = Begin(thread: nat) | Advance(thread: nat, choice: Choice) | Stop(thread: nat)

  predicate Present(fs: Files) {
    Target in fs.names
  }

  /** One system call. */
  function Step(fs: Files, stage: Stage, c: Choice): (Files, Stage) {
    match stage
    case Looking =>
      (fs, if c.fails then Finished(Err(StorageFailed)) else if Present(fs) then Opening else Generating)
    case Generating => (fs, if c.fails then Finished(Err(CryptoFailed)) else Creating(c.secret))
    case Creating(secret) =>
      var name := Pending(c.suffix);
      if c.fails || name in fs.names then (fs, Finished(Err(StorageFailed)))
      else
        (Files(fs.names[name := c.file], fs.contents[c.file := []]), Writing(secret, name, c.file, 0))
    case Writing(secret, name, file, written) =>
      if c.fails then (fs, Discarding(name, false))
      else if written >= SECRET_SIZE then (fs, Linking(secret, name, file))
      else
        var end := if written + 1 + c.count < SECRET_SIZE then written + 1 + c.count else SECRET_SIZE;
        var grown := if file in fs.contents then fs.contents[file] + secret[written..end] else secret[written..end];
        (fs.(contents := fs.contents[file := grown]), Writing(secret, name, file, end))
    case Linking(secret, name, file) =>
      if c.fails || name !in fs.names then (fs, Discarding(name, false))
      else if Present(fs) then (fs, Discarding(name, true))
      else (fs.(names := fs.names[Target := fs.names[name]]), Cleaning(secret, name))
    case Cleaning(secret, name) =>
      (if c.fails then fs else fs.(names := fs.names - {name}), Finished(Ok(secret)))
    case Discarding(name, taken) =>
      (if c.fails then fs else fs.(names := fs.names - {name}), if taken then Opening else Finished(Err(StorageFailed)))
    case Opening =>
      (fs, if c.fails || !Present(fs) then Finished(Err(StorageFailed)) else Reading(fs.names[Target], []))
    case Reading(file, got) =>
      var data := if file in fs.contents then fs.contents[file] else [];
      if c.fails then (fs, Finished(Err(StorageFailed)))
      else if |got| < SECRET_SIZE then
        if |data| <= |got| then (fs, Finished(Err(KeySizeMismatch)))
        else
          var limit := if |data| < SECRET_SIZE then |data| else SECRET_SIZE;
          var end := if |got| + 1 + c.count < limit then |got| + 1 + c.count else limit;
          (fs, Reading(file, got + data[|got|..end]))
      else if |data| > |got| || |got| > SECRET_SIZE then (fs, Finished(Err(KeySizeMismatch)))
      else (fs, Finished(Ok(got)))
    case Finished(_) => (fs, stage)
    case Stopped => (fs, stage)
  }

  /** The system gives a created file a number that is not in use. */
  predicate Enabled(w: World, e: Event) {
    match e
    case Begin(t) => t !in w.threads
    case Advance(t, c) => t in w.threads && c.file !in w.fs.contents
    case Stop(t) => t in w.threads
  }

  function Apply(w: World, e: Event): World
    requires Enabled(w, e)
  {
    match e
    case Begin(t) => w.(threads := w.threads[t := Looking])
    case Stop(t) => w.(threads := w.threads[t := Stopped])
    case Advance(t, c) =>
      var (fs, stage) := Step(w.fs, w.threads[t], c);
      World(fs, w.threads[t := stage])
  }

  ghost predicate Run(worlds: seq<World>, events: seq<Event>) {
    && |worlds| == |events| + 1
    && forall i | 0 <= i < |events| :: Enabled(worlds[i], events[i]) && worlds[i + 1] == Apply(worlds[i], events[i])
  }

  // ----- the invariant -----

  /** The thread has a pending name nobody else uses. */
  predicate Owns(stage: Stage) {
    stage.Writing? || stage.Linking? || stage.Cleaning? || stage.Discarding?
  }

  /** The secret at the path. */
  predicate Holds(fs: Files, secret: seq<byte>) {
    Present(fs) && fs.names[Target] in fs.contents && fs.contents[fs.names[Target]] == secret
  }

  /** What a thread relies on. */
  predicate StageSound(fs: Files, stage: Stage) {
    match stage
    case Writing(secret, name, file, written) =>
      && name.Pending? && name in fs.names && fs.names[name] == file && file in fs.contents
      && written <= SECRET_SIZE && fs.contents[file] == secret[..written]
      && (Present(fs) ==> fs.names[Target] != file)
    case Linking(secret, name, file) =>
      && name.Pending? && name in fs.names && fs.names[name] == file && file in fs.contents
      && fs.contents[file] == secret
      && (Present(fs) ==> fs.names[Target] != file)
    case Cleaning(secret, name) => name.Pending? && name in fs.names && Holds(fs, secret)
    case Discarding(name, taken) => name.Pending? && name in fs.names && (taken ==> Present(fs))
    case Opening => Present(fs)
    case Reading(file, got) =>
      && Present(fs) && fs.names[Target] == file && |got| <= SECRET_SIZE
      && file in fs.contents && got <= fs.contents[file]
    case Finished(result) =>
      if result.Ok? then Holds(fs, result.value) else result.error != KeySizeMismatch
    case _ => true
  }

  /** Two threads never share a pending name, nor a file they are writing. */
  predicate Apart(a: Stage, b: Stage) {
    Owns(a) && Owns(b) ==>
      && a.name != b.name
      && ((a.Writing? || a.Linking?) && (b.Writing? || b.Linking?) ==> a.file != b.file)
  }

  ghost predicate FilesSound(fs: Files) {
    && (forall n | n in fs.names :: fs.names[n] in fs.contents)
    && (Present(fs) ==> |fs.contents[fs.names[Target]]| == SECRET_SIZE)
  }

  ghost predicate Sound(w: World) {
    && FilesSound(w.fs)
    && (forall t | t in w.threads :: StageSound(w.fs, w.threads[t]))
    && (forall t, u | t in w.threads && u in w.threads && t != u :: Apart(w.threads[t], w.threads[u]))
  }

  /** The secret at the path, once there, is the same later. */
  predicate Stays(fs: Files, next: Files) {
    Present(fs) && fs.names[Target] in fs.contents ==> 
      Present(next) && next.names[Target] == fs.names[Target] && Holds(next, fs.contents[fs.names[Target]])
  }

  lemma StepSound(fs: Files, stage: Stage, c: Choice)
    requires FilesSound(fs) && StageSound(fs, stage) && c.file !in fs.contents
    ensures var (next, after) := Step(fs, stage, c);
            FilesSound(next) && StageSound(next, after) && Stays(fs, next)
  {
  }

  /** A step of one thread takes nothing from another. */
  lemma OtherSound(fs: Files, stage: Stage, c: Choice, other: Stage)
    requires FilesSound(fs) && StageSound(fs, stage) && StageSound(fs, other) && Apart(stage, other)
             && c.file !in fs.contents
    ensures var (next, after) := Step(fs, stage, c);
            StageSound(next, other) && Apart(after, other)
  {
  }

  lemma StepKeeps(w: World, e: Event)
    requires Sound(w) && Enabled(w, e)
    ensures Sound(Apply(w, e)) && Stays(w.fs, Apply(w, e).fs)
  {
    hide Step, StageSound, FilesSound, Apart;
    var next := Apply(w, e);
    if e.Advance? {
      var stage := w.threads[e.thread];
      StepSound(w.fs, stage, e.choice);
      forall u | u in w.threads && u != e.thread
        ensures StageSound(next.fs, w.threads[u]) && Apart(next.threads[e.thread], w.threads[u])
          && Apart(w.threads[u], next.threads[e.thread])
      {
        OtherSound(w.fs, stage, e.choice, w.threads[u]);
        ApartSymmetric(next.threads[e.thread], w.threads[u]);
      }
    } else {
      IdleSound(w.fs, next.threads[e.thread]);
      SameFiles(w.fs);
    }
  }

  lemma ApartSymmetric(a: Stage, b: Stage)
    ensures Apart(a, b) == Apart(b, a)
  {
  }

  lemma IdleSound(fs: Files, stage: Stage)
    requires stage.Looking? || stage.Stopped?
    ensures StageSound(fs, stage) && forall other :: Apart(stage, other) && Apart(other, stage)
  {
  }

  lemma SameFiles(fs: Files)
    ensures Stays(fs, fs)
  {
  }

  // ----- over whole runs -----

  /** No thread has begun; the secret file is complete if it is there. */
  ghost predicate Initial(w: World) {
    FilesSound(w.fs) && w.threads == map[]
  }

  lemma {:induction false} RunsAreSound(worlds: seq<World>, events: seq<Event>, i: nat)
    requires Run(worlds, events) && Initial(worlds[0]) && i < |worlds|
    ensures Sound(worlds[i])
  {
    if i > 0 {
      hide Apply, Enabled, Sound;
      RunsAreSound(worlds, events, i - 1);
      StepKeeps(worlds[i - 1], events[i - 1]);
    }
  }

  /** Once the file is there it never changes. */
  lemma {:induction false} SecretForGood(worlds: seq<World>, events: seq<Event>, i: nat, j: nat, secret: seq<byte>)
    requires Run(worlds, events) && Initial(worlds[0]) && i <= j < |worlds| && Holds(worlds[i].fs, secret)
    ensures Holds(worlds[j].fs, secret) && worlds[j].fs.names[Target] == worlds[i].fs.names[Target]
  {
    if i < j {
      hide Apply, Enabled, Sound, Initial;
      SecretForGood(worlds, events, i, j - 1, secret);
      RunsAreSound(worlds, events, j - 1);
      StepKeeps(worlds[j - 1], events[j - 1]);
    }
  }

  /**
   However the calls interleave, fail or stop, all that succeed return the same secret, which is
   what the file holds, and none ever finds the file incomplete.
   */
  lemma AllAgree(worlds: seq<World>, events: seq<Event>, i: nat, j: nat, t: nat, u: nat)
    requires Run(worlds, events) && Initial(worlds[0]) && i <= j < |worlds|
    requires t in worlds[i].threads && worlds[i].threads[t].Finished? && u in worlds[j].threads
             && worlds[j].threads[u].Finished?
    ensures worlds[i].threads[t].result != Err(KeySizeMismatch)
    ensures worlds[i].threads[t].result.Ok? ==> Holds(worlds[j].fs, worlds[i].threads[t].result.value)
    ensures worlds[i].threads[t].result.Ok? && worlds[j].threads[u].result.Ok? ==>
              worlds[i].threads[t].result == worlds[j].threads[u].result
  {
    hide Apply, Enabled, FilesSound, Apart;
    RunsAreSound(worlds, events, i);
    RunsAreSound(worlds, events, j);
    assert StageSound(worlds[i].fs, worlds[i].threads[t]) && StageSound(worlds[j].fs, worlds[j].threads[u]);
    if worlds[i].threads[t].result.Ok? {
      SecretForGood(worlds, events, i, j, worlds[i].threads[t].result.value);
    }
  }

  // ----- a call that meets a failure -----

  /**
   What a failing system call comes to: the drawing of the secret has an error of its own, a failure to
   write or to link ends, after the pending file is taken away, with the error of the storage like the others,
   and a failure to take the pending name away after the link, or before reading, is of no consequence.
   */
  lemma FailureAnswers(fs: Files, stage: Stage, c: Choice)
    requires c.fails && StageSound(fs, stage) && !stage.Finished? && !stage.Stopped?
    ensures var (next, after) := Step(fs, stage, c);
            && next == fs
            && match stage
               case Looking => after == Finished(Err(StorageFailed))
               case Generating => after == Finished(Err(CryptoFailed))
               case Creating(_) => after == Finished(Err(StorageFailed))
               case Writing(_, name, _, _) => DiscardingFails(fs, after)
               case Linking(_, name, _) => DiscardingFails(fs, after)
               case Cleaning(secret, _) => after == Finished(Ok(secret))
               case Discarding(_, taken) => after == if taken then Opening else Finished(Err(StorageFailed))
               case Opening => after == Finished(Err(StorageFailed))
               case Reading(_, _) => after == Finished(Err(StorageFailed))
               case _ => true
  {
  }

  /** Whatever the next step does, the call ends with the error of the storage. */
  ghost predicate DiscardingFails(fs: Files, stage: Stage) {
    stage.Discarding? && forall c :: Step(fs, stage, c).1 == Finished(Err(StorageFailed))
  }

  // ----- a call that meets no failure -----

  /** At most this many more system calls until the thread is done. */
  function Remaining(stage: Stage): nat {
    match stage
    case Looking => 72
    case Generating => 71
    case Creating(_) => 70
    case Writing(_, _, _, written) => if written <= 32 then 37 + (32 - written) else 37
    case Linking(_, _, _) => 36
    case Discarding(_, _) => 35
    case Opening => 34
    case Reading(_, got) => if |got| <= 32 then 1 + (32 - |got|) else 1
    case Cleaning(_, _) => 1
    case Finished(_) => 0
    case Stopped => 0
  }

  /** The thread has met no failure yet. */
  predicate Succeeding(stage: Stage) {
    && !stage.Stopped? && (stage.Discarding? ==> stage.taken) && (stage.Finished? ==> stage.result.Ok?)
  }

  /** The next step of thread `t`, if it is one, does not fail, and a pending name it draws is free. */
  predicate GoesWell(w: World, e: Event, t: nat) {
    && e != Stop(t)
    && (e.Advance? && e.thread == t ==> !e.choice.fails && Pending(e.choice.suffix) !in w.fs.names)
  }

  /** Without a failure every system call gets the thread closer to its secret. */
  lemma StepAdvances(fs: Files, stage: Stage, c: Choice)
    requires FilesSound(fs) && StageSound(fs, stage) && c.file !in fs.contents && Succeeding(stage)
    requires !c.fails && Pending(c.suffix) !in fs.names
    ensures var after := Step(fs, stage, c).1;
            && Succeeding(after)
            && (if Remaining(stage) > 0 then Remaining(after) < Remaining(stage) else after == stage)
  {
  }

  /** How many of the steps from `i` to `j` are system calls of thread `t`. */
  function StepsOf(events: seq<Event>, t: nat, i: nat, j: nat): nat
    requires i <= j <= |events|
  {
    if i == j then 0
    else StepsOf(events, t, i, j - 1) + if events[j - 1].Advance? && events[j - 1].thread == t then 1 else 0
  }

  lemma {:induction false} Advances(worlds: seq<World>, events: seq<Event>, i: nat, j: nat, t: nat)
    requires Run(worlds, events) && Initial(worlds[0]) && i <= j < |worlds|
    requires t in worlds[i].threads && Succeeding(worlds[i].threads[t])
    requires forall k | i <= k < j :: GoesWell(worlds[k], events[k], t)
    ensures t in worlds[j].threads && Succeeding(worlds[j].threads[t])
    ensures Remaining(worlds[j].threads[t]) == 0
            || Remaining(worlds[j].threads[t]) + StepsOf(events, t, i, j) <= Remaining(worlds[i].threads[t])
  {
    if i < j {
      hide Sound, Initial, Remaining, Succeeding, Apply, Enabled, GoesWell;
      Advances(worlds, events, i, j - 1, t);
      RunsAreSound(worlds, events, j - 1);
      EventAdvances(worlds[j - 1], events[j - 1], t);
    }
  }

  /** An event either advances the thread or leaves it where it is. */
  lemma EventAdvances(w: World, e: Event, t: nat)
    requires Sound(w) && Enabled(w, e) && t in w.threads && Succeeding(w.threads[t]) && GoesWell(w, e, t)
    ensures var next := Apply(w, e);
            && t in next.threads && Succeeding(next.threads[t])
            && if e.Advance? && e.thread == t && Remaining(w.threads[t]) > 0 then
                 Remaining(next.threads[t]) < Remaining(w.threads[t])
               else next.threads[t] == w.threads[t]
  {
    hide Step, Remaining, Succeeding, StageSound, FilesSound;
    if e.Advance? && e.thread == t {
      ThreadSound(w, t);
      StepAdvances(w.fs, w.threads[t], e.choice);
    }
  }

  lemma ThreadSound(w: World, t: nat)
    requires Sound(w) && t in w.threads
    ensures FilesSound(w.fs) && StageSound(w.fs, w.threads[t])
  {
  }

  /**
   Whatever other threads do, a call that meets no failure has its secret after at most 72 system
   calls of its own: the one the file holds, and has held since it was there.
   */
  lemma CallSucceeds(worlds: seq<World>, events: seq<Event>, i: nat, j: nat, t: nat)
    requires Run(worlds, events) && Initial(worlds[0]) && i <= j < |worlds|
    requires t in worlds[i].threads && worlds[i].threads[t] == Looking
    requires (forall k | i <= k < j :: GoesWell(worlds[k], events[k], t)) && StepsOf(events, t, i, j) >= 72
    ensures t in worlds[j].threads && worlds[j].threads[t].Finished? && worlds[j].threads[t].result.Ok?
    ensures Holds(worlds[j].fs, worlds[j].threads[t].result.value) && |worlds[j].threads[t].result.value| == 32
    ensures forall secret | Holds(worlds[i].fs, secret) :: worlds[j].threads[t].result.value == secret
  {
    Advances(worlds, events, i, j, t);
    RunsAreSound(worlds, events, j);
    ThreadSound(worlds[j], t);
    hide Sound, Initial, Run, FilesSound;
    forall secret | Holds(worlds[i].fs, secret) ensures Holds(worlds[j].fs, secret) {
      SecretForGood(worlds, events, i, j, secret);
    }
  }
}
