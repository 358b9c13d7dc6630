/**
 The files of a command root: what a crash can leave of them, and the intent
 and result records of dependency preparation that are kept in them.
 */
module PreparationFiles {
  import opened Wrappers

  type Key = string

  // The preparation a request was made for; hashes stand for what they hash.
  datatype Intent = Intent(key: Key, backend: nat, spec: nat)

  // What the guest says of a preparation. A receipt is present exactly when
  // the cache was prepared, and a prepared cache is joined.
  datatype Terminal = Terminal(key: Key, joined: bool, prepared: bool, receipt: Option<nat>)

  predicate ValidTerminal(t: Terminal, key: Key) {
    && t.key == key
    && (t.prepared ==> t.joined && t.receipt.Some?)
    && (!t.prepared ==> t.receipt.None?)
  }

  datatype Outcome = Outcome(intent: Intent, terminal: Terminal)

  // A result file is named by the digest of its record.
  datatype Name = IntentName(key: Key) | ResultName(outcome: Outcome)

  // A file that was not completely written cannot be decoded.
  datatype Content = Partial | WholeIntent(intent: Intent) | WholeResult(outcome: Outcome)

  // What a reader sees now, and what is sure to survive a loss of power.
  datatype Files = Files(disk: map<Name, Content>, synced: map<Name, Content>)
  {
    function Open(n: Name): Files { this.(disk := disk[n := Partial]) }

    function Fill(n: Name, c: Content): Files { this.(disk := disk[n := c]) }

    // fsync of the file and then of the directory: entries become durable, the
    // contents of other unsynced files do not.
    function Sync(n: Name): Files {
      this.(synced := map m | m in disk ::
        if m == n || (m in synced && synced[m] == disk[m]) then disk[m] else Partial)
    }

    function Remove(n: Name): Files { this.(disk := disk - {n}) }

    function SyncDirectory(): Files {
      this.(synced := map m | m in disk ::
        if m in synced && synced[m] == disk[m] then disk[m] else Partial)
    }

    // Losing power keeps of every file what was synced, or what was on disk,
    // or an unsynced part of it.
    ghost predicate MayLeave(after: map<Name, Content>) {
      forall n: Name ::
        || Lookup(after, n) == Lookup(synced, n)
        || Lookup(after, n) == Lookup(disk, n)
        || (n in disk && Lookup(disk, n) != Lookup(synced, n) && Lookup(after, n) == Some(Partial))
    }
  }

  function Lookup(m: map<Name, Content>, n: Name): Option<Content> {
    if n in m then Some(m[n]) else None
  }

  predicate NoIntents(m: map<Name, Content>) {
    forall n :: n in m ==> !n.IntentName?
  }

  // Key's intent file is there and no other intent file is.
  predicate OnlyIntent(m: map<Name, Content>, key: Key) {
    IntentName(key) in m && forall n :: n in m && n.IntentName? ==> n == IntentName(key)
  }

  // Finishing needs a joined terminal for the intent on disk, and either no
  // record under the outcome's name or the very same one.
  predicate Finishes(disk: map<Name, Content>, intent: Intent, terminal: Terminal) {
    var record := Outcome(intent, terminal);
    && ValidTerminal(terminal, intent.key) && terminal.joined
    && Lookup(disk, IntentName(intent.key)) == Some(WholeIntent(intent))
    && Lookup(disk, ResultName(record)) in {None, Some(WholeResult(record))}
  }

  class CommandRoot {
    var files: Files

    constructor ()
      ensures files == Files(map[], map[])
    {
      files := Files(map[], map[]);
    }

    // Create a record without clobbering, and make it durable.
    method DurableCreate(n: Name, c: Content) returns (created: bool)
      modifies this
      ensures created <==> n !in old(files).disk
      ensures files == if created then old(files).Open(n).Fill(n, c).Sync(n) else old(files)
    {
      if n in files.disk {
        return false;
      }
      files := files.Open(n);
      files := files.Fill(n, c);
      files := files.Sync(n);
      created := true;
    }

    // Refuses while any intent file is retained, whatever it contains.
    method BeginIntent(intent: Intent) returns (begun: bool)
      modifies this
      ensures begun <==> NoIntents(old(files).disk)
      ensures begun ==>
        && OnlyIntent(files.disk, intent.key) && OnlyIntent(files.synced, intent.key)
        && Lookup(files.disk, IntentName(intent.key)) == Some(WholeIntent(intent))
        && Lookup(files.synced, IntentName(intent.key)) == Some(WholeIntent(intent))
      ensures !begun ==> files == old(files)
    {
      if exists n :: n in files.disk && n.IntentName? {
        return false;
      }
      begun := DurableCreate(IntentName(intent.key), WholeIntent(intent));
    }

    // Publish the joined outcome, or find the same one already published, and
    // only then remove the intent.
    method FinishIntent(intent: Intent, terminal: Terminal) returns (done: bool)
      modifies this
      ensures done <==> Finishes(old(files).disk, intent, terminal)
      ensures !done ==> files.disk == old(files).disk
      ensures done ==>
        var record := Outcome(intent, terminal);
        && files.disk == old(files).disk[ResultName(record) := WholeResult(record)] - {IntentName(intent.key)}
        && IntentName(intent.key) !in files.synced
        && (ResultName(record) !in old(files).disk ==>
              Lookup(files.synced, ResultName(record)) == Some(WholeResult(record)))
    {
      var record := Outcome(intent, terminal);
      if !ValidTerminal(terminal, intent.key) || !terminal.joined {
        return false;
      }
      if Lookup(files.disk, IntentName(intent.key)) != Some(WholeIntent(intent)) {
        return false;
      }
      var created := DurableCreate(ResultName(record), WholeResult(record));
      if !created && files.disk[ResultName(record)] != WholeResult(record) {
        return false;
      }
      files := files.Remove(IntentName(intent.key));
      files := files.SyncDirectory();
      done := true;
    }
  }
}
