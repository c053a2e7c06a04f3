/** The cache downloader on a file system that may stop between any two operations. */
module Downloader {
  import opened Wrappers
  import opened Sums

  datatype Args = Args(source: string, repo: string, revision: string, inputHash: string)

  datatype Manifest = Manifest(
    repo: string, requestedRevision: Option<string>, revision: string, source: string,
    byteSize: int, completedAt: string, inputHash: string)

  /** A marker file; one that is not a JSON object of the right types reads as Unreadable. */
  datatype Marker = Readable(manifest: Manifest) | Unreadable

  /** A directory: downloaded files by name, the marker, and the marker's temporary file. */
  datatype Dir = Dir(files: map<string, string>, marker: Option<Marker>, temporary: bool)

  const EmptyDir := Dir(map[], None, false)

  /** What the model hub serves for an attempt: the resolved revision and its files. */
  datatype Snapshot = Snapshot(revision: string, files: map<string, string>, listing: seq<string>)

  ghost predicate Lists(snapshot: Snapshot) {
    && (forall name :: name in snapshot.listing <==> name in snapshot.files)
    && (forall i, j | 0 <= i < j < |snapshot.listing| :: snapshot.listing[i] != snapshot.listing[j])
  }

  function Size(files: map<string, string>, names: seq<string>): nat {
    if names == [] || names[0] !in files then 0 else |files[names[0]]| + Size(files, names[1..])
  }

  /** The recorded size is that of all files, in whatever order they came. */
  lemma {:induction false} SizeIsTotal(snapshot: Snapshot, total: string -> int)
    requires Lists(snapshot) && forall name <- snapshot.files :: total(name) == |snapshot.files[name]|
    ensures Size(snapshot.files, snapshot.listing) == Sum(snapshot.files.Keys, total)
    decreases |snapshot.listing|
  {
    var files, names := snapshot.files, snapshot.listing;
    if names != [] {
      var name := names[0];
      assert name in files;
      var rest := Snapshot(snapshot.revision, files - {name}, names[1..]);
      assert names == [name] + names[1..];
      SizeIsTotal(rest, total);
      SumTake(files.Keys, total, name);
      assert rest.files.Keys == files.Keys - {name};
      SizeWithout(files, name, names[1..]);
    } else {
      assert files.Keys == {};
    }
  }

  lemma {:induction false} SizeWithout(files: map<string, string>, name: string, names: seq<string>)
    requires name !in names
    ensures Size(files - {name}, names) == Size(files, names)
  {
    if names != [] {
      SizeWithout(files, name, names[1..]);
    }
  }

  predicate ManifestMatches(marker: Marker, args: Args) {
    && marker.Readable?
    && marker.manifest.repo == args.repo
    && marker.manifest.source == args.source
    && marker.manifest.inputHash == args.inputHash
    && marker.manifest.revision != ""
    && (marker.manifest.requestedRevision.Some? ==> marker.manifest.requestedRevision.value == args.revision)
    && marker.manifest.byteSize >= 0
    && marker.manifest.completedAt != ""
  }

  /** One run of the downloader. `steps` operations succeed before the process is killed; the download
      breaks off after `files` files when that is fewer than there are; `syncFails` is an error after
      the rename. */
  datatype Attempt = Attempt(args: Args, snapshot: Snapshot, files: nat, now: string, syncFails: bool, steps: nat)

  predicate AttemptOk(a: Attempt) {
    a.now != ""
  }

  /** The marker is a manifest of exactly this source, repository and input hash, recorded without a requested
      revision or with this one, for a resolved revision, with a size and a completion time. */
  ghost predicate Identifies(marker: Marker, args: Args) {
    && marker.Readable?
    && var m := marker.manifest;
    && m == Manifest(args.repo, m.requestedRevision, m.revision, args.source, m.byteSize, m.completedAt, args.inputHash)
    && m.requestedRevision in {None, Some(args.revision)}
    && m.revision != "" && m.byteSize >= 0 && m.completedAt != ""
  }

  /** The directory holds everything the hub served for the attempt, marked with its identity. */
  ghost predicate CompleteFor(dir: Dir, a: Attempt) {
    && dir.files == a.snapshot.files && !dir.temporary
    && dir.marker.Some? && Identifies(dir.marker.value, a.args)
    && dir.marker.value.manifest.requestedRevision == Some(a.args.revision)
    && dir.marker.value.manifest.revision == a.snapshot.revision
    && dir.marker.value.manifest.byteSize == Size(a.snapshot.files, a.snapshot.listing)
  }

  /** How many removals it takes to clear a directory tree. */
  function Entries(dir: Option<Dir>): nat {
    if dir.None? then 0
    else 1 + |dir.value.files| + (if dir.value.marker.Some? then 1 else 0) + (if dir.value.temporary then 1 else 0)
  }

  /** The hub resolves the revision and serves every file. */
  predicate Served(a: Attempt) {
    a.snapshot.revision != "" && a.files >= |a.snapshot.listing|
  }

  class Disk {
    var dest: Option<Dir>
    var staging: Option<Dir>
    var stepsLeft: nat

    constructor ()
      ensures dest == None && staging == None
    {
      dest, staging, stepsLeft := None, None, 0;
    }

    method Proceed() returns (ok: bool)
      modifies this`stepsLeft
      ensures ok == (old(stepsLeft) > 0) && stepsLeft == if ok then old(stepsLeft) - 1 else 0
    {
      ok := stepsLeft > 0;
      stepsLeft := if ok then stepsLeft - 1 else 0;
    }

    /** Removes the staging tree entry by entry; a kill leaves part of it. */
    method RemoveStaging() returns (alive: bool)
      modifies this`staging, this`stepsLeft
      ensures alive ==> staging.None?
      ensures old(stepsLeft) >= Entries(old(staging)) ==> alive && stepsLeft + Entries(old(staging)) >= old(stepsLeft)
    {
      alive := true;
      while staging.Some? && staging.value != EmptyDir
        invariant Entries(staging) <= Entries(old(staging))
        invariant alive && old(stepsLeft) - stepsLeft == Entries(old(staging)) - Entries(staging)
        decreases Entries(staging)
      {
        alive := Proceed();
        if !alive { return; }
        var dir := staging.value;
        if dir.marker.Some? {
          staging := Some(dir.(marker := None));
        } else if dir.temporary {
          staging := Some(dir.(temporary := false));
        } else {
          var name :| name in dir.files;
          staging := Some(dir.(files := dir.files - {name}));
        }
      }
      if staging.Some? {
        alive := Proceed();
        if !alive { return; }
        staging := None;
      }
    }

    /** Fetches the files one by one; `fetched` is false when the hub breaks off. */
    method Download(a: Attempt) returns (alive: bool, fetched: bool)
      requires Lists(a.snapshot) && staging == Some(EmptyDir)
      modifies this`staging, this`stepsLeft
      ensures staging.Some?
      ensures old(stepsLeft) >= |a.snapshot.listing| ==> alive && stepsLeft + |a.snapshot.listing| >= old(stepsLeft)
      ensures alive ==> (fetched <==> Served(a))
      ensures alive && fetched ==> staging == Some(EmptyDir.(files := a.snapshot.files)) && a.snapshot.revision != ""
    {
      alive := true;
      if a.snapshot.revision == "" {
        return true, false;
      }
      var names := a.snapshot.listing;
      for i := 0 to |names|
        invariant staging.Some? && alive && i <= a.files && stepsLeft + i == old(stepsLeft)
        invariant staging.value == EmptyDir.(files := staging.value.files)
        invariant forall name :: name in staging.value.files <==> name in names[..i]
        invariant forall name <- staging.value.files ::
          name in a.snapshot.files && staging.value.files[name] == a.snapshot.files[name]
      {
        assert names[..i + 1] == names[..i] + [names[i]];
        if i >= a.files {
          return true, false;
        }
        alive := Proceed();
        if !alive { return false, false; }
        staging := Some(staging.value.(files := staging.value.files[names[i] := a.snapshot.files[names[i]]]));
      }
      assert names[..|names|] == names;
      assert staging.value.files == a.snapshot.files;
      fetched := true;
    }

    /** Writes the marker to a temporary file and renames it into place. */
    method WriteManifest(manifest: Manifest) returns (alive: bool)
      requires staging.Some?
      modifies this`staging, this`stepsLeft
      ensures staging.Some?
      ensures old(stepsLeft) >= 2 ==> alive && stepsLeft + 2 == old(stepsLeft)
      ensures alive ==> staging == Some(old(staging.value).(marker := Some(Readable(manifest)), temporary := false))
    {
      alive := Proceed();
      if !alive { return; }
      staging := Some(staging.value.(temporary := true));
      alive := Proceed();
      if !alive { return; }
      staging := Some(staging.value.(temporary := false, marker := Some(Readable(manifest))));
    }

    /** One run. Whatever happens, the destination is either untouched or was not there and is now
        complete; an exit code of zero means that it carries the requested identity. */
    method Publish(a: Attempt) returns (code: Option<int>)
      requires Lists(a.snapshot) && AttemptOk(a)
      modifies this
      ensures dest == old(dest) || (Replaceable(old(dest)) && dest.Some? && CompleteFor(dest.value, a))
      ensures code == Some(0) ==>
        dest.Some? && dest.value.marker.Some? && Identifies(dest.value.marker.value, a.args)
      ensures Marked(old(dest)) ==>
        && dest == old(dest) && staging == old(staging)
        && code == Some(if Identifies(old(dest).value.marker.value, a.args) then 0 else 1)
      ensures !Marked(old(dest)) && code.Some? ==>
        (code == Some(0) <==> Served(a) && Replaceable(old(dest)) && !a.syncFails)
      ensures Served(a) && Replaceable(old(dest)) && a.steps >= Entries(old(staging)) + |a.snapshot.listing| + 4 ==>
        dest.Some? && CompleteFor(dest.value, a)
    {
      stepsLeft := a.steps;
      if Marked(dest) {
        return Some(if ManifestMatches(dest.value.marker.value, a.args) then 0 else 1);
      }
      code := None;
      var alive := RemoveStaging();
      if !alive { return; }
      alive := Proceed();
      if !alive { return; }
      staging := Some(EmptyDir);
      var fetched: bool;
      alive, fetched := Download(a);
      if !alive { return; }
      if fetched {
        var manifest := Manifest(a.args.repo, Some(a.args.revision), a.snapshot.revision, a.args.source,
                                 Size(a.snapshot.files, a.snapshot.listing), a.now, a.args.inputHash);
        alive := WriteManifest(manifest);
        if !alive { return; }
        alive := Proceed();
        if !alive { return; }
        if Replaceable(dest) {
          dest, staging := staging, None;
          if !a.syncFails {
            return Some(0);
          }
        }
      }
      alive := RemoveStaging();
      if alive { code := Some(1); }
    }

    /** Any number of attempts, of any identities, each cut off anywhere: from no destination it stays
        absent or becomes, once and for all, the complete download of one of them. */
    method Attempts(attempts: seq<Attempt>) returns (winner: Option<nat>)
      requires dest == None && forall i | 0 <= i < |attempts| :: Lists(attempts[i].snapshot) && AttemptOk(attempts[i])
      modifies this
      ensures winner.None? ==> dest == None
      ensures winner.Some? ==>
        winner.value < |attempts| && dest.Some? && CompleteFor(dest.value, attempts[winner.value])
    {
      winner := None;
      for i := 0 to |attempts|
        invariant winner.None? ==> dest == None
        invariant winner.Some? ==> winner.value < i && dest.Some? && CompleteFor(dest.value, attempts[winner.value])
      {
        var _ := Publish(attempts[i]);
        if winner.None? && dest.Some? {
          winner := Some(i);
        }
      }
    }

    /** Once published, the same identity succeeds and changes nothing; another one fails and changes nothing. */
    method Rerun(first: Attempt, again: Attempt) returns (code: Option<int>)
      requires dest.Some? && CompleteFor(dest.value, first) && Lists(again.snapshot) && AttemptOk(again)
      modifies this
      ensures dest == old(dest)
      ensures code == Some(if again.args == first.args then 0 else 1)
    {
      code := Publish(again);
    }
  }

  predicate Marked(dest: Option<Dir>) {
    dest.Some? && dest.value.marker.Some?
  }

  /** The rename succeeds over a missing or an empty destination directory only. */
  predicate Replaceable(dest: Option<Dir>) {
    dest.None? || dest.value == EmptyDir
  }
}
