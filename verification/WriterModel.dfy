/**
 The contact workspace's versioned write: one chain of writers per file, each
 comparing the file twice before it replaces it (qualification/contact-workspace.ts).
 The steps are those between which other code can run.
 */
module WriterModel {
  import opened Wrappers

  type Path = string
  type Text = string

  // A revision is the digest of a text and stands for that text here.
  datatype Expectation = Anything | Absent | Exactly(text: Text)

  predicate Meets(expected: Expectation, current: Option<Text>) {
    match expected
    case Anything => true
    case Absent => current == None
    case Exactly(text) => current == Some(text)
  }

  datatype Phase =
    | Waiting(previous: Option<nat>)
    | Started
    | Compared(current: Option<Text>)
    | Opened(current: Option<Text>)
    | Written(current: Option<Text>)
    | Rechecked(current: Option<Text>)
    | Discarding
    | Settled(wrote: bool)
    | Gone(wrote: bool)
  {
    // The promise is settled; then the caller has seen it too.
    predicate Over() { Settled? || Gone? }
    predicate Running() { !Waiting? && !Over() }
    predicate HasStage() { Opened? || Written? || Rechecked? || Discarding? }
    predicate HasRead() { Compared? || Opened? || Written? || Rechecked? }
    predicate Wrote() { Over() && wrote }
  }

  datatype Writer = Writer(path: Path, text: Text, expected: Expectation, phase: Phase)

  datatype Author = Owner | Broker(writer: nat, seen: Option<Text>)

  // A change of a file, whoever made it; of a writer, what its first read saw.
  datatype Change = Change(author: Author, path: Path, old_: Option<Text>, new_: Option<Text>)

  // `tails` is the map of chain tails; stages carry the number of their writer;
  // `orphans` are the stages whose removal failed.  The reads say how
  // many changes there had been when a writer read its file, first and again.
  datatype State = State(files: map<Path, Text>, staging: map<nat, Text>, orphans: set<nat>,
                         tails: map<Path, nat>, writers: seq<Writer>, history: seq<Change>,
                         firstReads: map<nat, nat>, secondReads: map<nat, nat>)

  function Fresh(files: map<Path, Text>): State { State(files, map[], {}, map[], [], [], map[], map[]) }

  function Lookup<K, V>(m: map<K, V>, k: K): Option<V> { if k in m then Some(m[k]) else None }

  function With(files: map<Path, Text>, path: Path, text: Option<Text>): map<Path, Text> {
    match text
    case None => files - {path}
    case Some(t) => files[path := t]
  }

  datatype Event =
    | Call(path: Path, text: Text, expected: Expectation)
    | Begin(writer: nat)
    | Compare(writer: nat)
    | Open(writer: nat)
    | Write(writer: nat)
    | Recheck(writer: nat)
    | Publish(writer: nat)
    | Fail(writer: nat)
    | Unlink(writer: nat, removed: bool)
    | Leave(writer: nat)
    | Edit(path: Path, content: Option<Text>)

  predicate Enabled(s: State, e: Event) {
    match e
    case Call(_, _, _) => true
    case Edit(_, _) => true
    case Begin(i) =>
      && i < |s.writers| && s.writers[i].phase.Waiting?
      && (match s.writers[i].phase.previous
          case None => true
          case Some(k) => k < |s.writers| && s.writers[k].phase.Over())
    case Compare(i) => i < |s.writers| && s.writers[i].phase.Started?
    case Open(i) => i < |s.writers| && s.writers[i].phase.Compared?
    case Write(i) => i < |s.writers| && s.writers[i].phase.Opened?
    case Recheck(i) => i < |s.writers| && s.writers[i].phase.Written?
    case Publish(i) => i < |s.writers| && s.writers[i].phase.Rechecked? && i in s.staging
    case Fail(i) => i < |s.writers| && s.writers[i].phase.Running() && !s.writers[i].phase.Discarding?
    case Unlink(i, _) => i < |s.writers| && s.writers[i].phase.Discarding?
    case Leave(i) => i < |s.writers| && s.writers[i].phase.Settled?
  }

  function At(s: State, i: nat, phase: Phase): State
    requires i < |s.writers|
  {
    s.(writers := s.writers[i := s.writers[i].(phase := phase)])
  }

  function Next(s: State, e: Event): State
    requires Enabled(s, e)
  {
    match e
    case Call(path, text, expected) =>
      var i := |s.writers|;
      s.(tails := s.tails[path := i],
         writers := s.writers + [Writer(path, text, expected, Waiting(Lookup(s.tails, path)))])
    case Begin(i) => At(s, i, Started)
    case Compare(i) =>
      var current := Lookup(s.files, s.writers[i].path);
      if Meets(s.writers[i].expected, current)
      then At(s, i, Compared(current)).(firstReads := s.firstReads[i := |s.history|])
      else At(s, i, Settled(false))
    case Open(i) => At(s, i, Opened(s.writers[i].phase.current)).(staging := s.staging[i := ""])
    case Write(i) => At(s, i, Written(s.writers[i].phase.current)).(staging := s.staging[i := s.writers[i].text])
    case Recheck(i) =>
      var current := s.writers[i].phase.current;
      if Lookup(s.files, s.writers[i].path) == current
      then At(s, i, Rechecked(current)).(secondReads := s.secondReads[i := |s.history|])
      else At(s, i, Discarding)
    case Publish(i) =>
      var path := s.writers[i].path;
      At(s, i, Settled(true)).(
        files := s.files[path := s.staging[i]],
        staging := s.staging - {i},
        history := s.history + [Change(Broker(i, s.writers[i].phase.current), path,
                                       Lookup(s.files, path), Some(s.staging[i]))])
    case Fail(i) => At(s, i, if s.writers[i].phase.HasStage() then Discarding else Settled(false))
    case Unlink(i, removed) =>
      At(s, i, Settled(false)).(
        staging := if removed then s.staging - {i} else s.staging,
        orphans := if removed then s.orphans else s.orphans + {i})
    case Leave(i) =>
      var path := s.writers[i].path;
      At(s, i, Gone(s.writers[i].phase.wrote)).(
        tails := if Lookup(s.tails, path) == Some(i) then s.tails - {path} else s.tails)
    case Edit(path, text) =>
      s.(files := With(s.files, path, text),
         history := s.history + [Change(Owner, path, Lookup(s.files, path), text)])
  }

  ghost predicate IsRun(s: State, events: seq<Event>, last: State)
    decreases |events|
  {
    if events == [] then last == s
    else Enabled(s, events[0]) && IsRun(Next(s, events[0]), events[1..], last)
  }


  /** The broker: the map of chain tails, the files and the stages. */
  class Workspace {
    var files: map<Path, Text>
    var staging: map<nat, Text>
    var tails: map<Path, nat>
    var writers: seq<Writer>
    ghost var orphans: set<nat>
    ghost var history: seq<Change>
    ghost var firstReads: map<nat, nat>
    ghost var secondReads: map<nat, nat>

    ghost function View(): State
      reads this
    {
      State(files, staging, orphans, tails, writers, history, firstReads, secondReads)
    }

    constructor (files: map<Path, Text>)
      ensures View() == Fresh(files)
    {
      this.files, staging, tails, writers := files, map[], map[], [];
      orphans, history, firstReads, secondReads := {}, [], map[], map[];
    }

    method Call(path: Path, text: Text, expected: Expectation) returns (i: nat)
      modifies this
      ensures i == |old(writers)| && View() == Next(old(View()), Event.Call(path, text, expected))
    {
      i := |writers|;
      var previous := if path in tails then Some(tails[path]) else None;
      writers := writers + [Writer(path, text, expected, Waiting(previous))];
      tails := tails[path := i];
    }

    method Enter(i: nat, phase: Phase)
      requires i < |writers|
      modifies this`writers
      ensures View() == At(old(View()), i, phase)
    {
      writers := writers[i := writers[i].(phase := phase)];
    }

    method Begin(i: nat)
      requires Enabled(View(), Event.Begin(i))
      modifies this
      ensures View() == Next(old(View()), Event.Begin(i))
    {
      Enter(i, Started);
    }

    // The first read, and the comparison with what the caller expects.
    method Compare(i: nat)
      requires Enabled(View(), Event.Compare(i))
      modifies this
      ensures View() == Next(old(View()), Event.Compare(i))
    {
      var w := writers[i];
      var current := Lookup(files, w.path);
      if w.expected.Absent? && current.Some? {
        Enter(i, Settled(false));
      } else if w.expected.Exactly? && current != Some(w.expected.text) {
        Enter(i, Settled(false));
      } else {
        firstReads := firstReads[i := |history|];
        Enter(i, Compared(current));
      }
    }

    method Open(i: nat)
      requires Enabled(View(), Event.Open(i))
      modifies this
      ensures View() == Next(old(View()), Event.Open(i))
    {
      staging := staging[i := ""];
      Enter(i, Opened(writers[i].phase.current));
    }

    method Write(i: nat)
      requires Enabled(View(), Event.Write(i))
      modifies this
      ensures View() == Next(old(View()), Event.Write(i))
    {
      staging := staging[i := writers[i].text];
      Enter(i, Written(writers[i].phase.current));
    }

    // The second read, which finds what the owner changed meanwhile.
    method Recheck(i: nat)
      requires Enabled(View(), Event.Recheck(i))
      modifies this
      ensures View() == Next(old(View()), Event.Recheck(i))
    {
      var current := writers[i].phase.current;
      var latest := Lookup(files, writers[i].path);
      if latest != current {
        Enter(i, Discarding);
      } else {
        secondReads := secondReads[i := |history|];
        Enter(i, Rechecked(current));
      }
    }

    method Publish(i: nat)
      requires Enabled(View(), Event.Publish(i))
      modifies this
      ensures View() == Next(old(View()), Event.Publish(i))
    {
      var path, text := writers[i].path, staging[i];
      history := history + [Change(Broker(i, writers[i].phase.current), path, Lookup(files, path), Some(text))];
      files := files[path := text];
      staging := staging - {i};
      Enter(i, Settled(true));
    }

    // A throw: past the opening of the stage it is caught, to remove the stage.
    method Fail(i: nat)
      requires Enabled(View(), Event.Fail(i))
      modifies this
      ensures View() == Next(old(View()), Event.Fail(i))
    {
      if writers[i].phase.HasStage() { Enter(i, Discarding); } else { Enter(i, Settled(false)); }
    }

    method Unlink(i: nat, removed: bool)
      requires Enabled(View(), Event.Unlink(i, removed))
      modifies this
      ensures View() == Next(old(View()), Event.Unlink(i, removed))
    {
      if removed { staging := staging - {i}; } else { orphans := orphans + {i}; }
      Enter(i, Settled(false));
    }

    // Only the tail of the chain takes the chain out of the map.
    method Leave(i: nat)
      requires Enabled(View(), Event.Leave(i))
      modifies this
      ensures View() == Next(old(View()), Event.Leave(i))
    {
      var path := writers[i].path;
      if path in tails && tails[path] == i { tails := tails - {path}; }
      Enter(i, Gone(writers[i].phase.wrote));
    }
  }
}
