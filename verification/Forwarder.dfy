/** The spool directories of a sensor, and what one round of the forwarder does to them. */
module Forwarder {
  import opened Bytes
  import opened Delivery

  const PCAP_HEADER_SIZE := 24

  datatype File = File(name: string, observations: nat, size: nat, modified: int)

  /**
    What a round meets: the replies that the attempts for each observation of a file would get, after
    how many observations reading raises (more than there are if it never does), and whether the file
    can be moved.
   */
  datatype World = World(replies: (File, nat) -> (nat -> Reply), readable: File -> nat, moves: File -> bool)

  ghost predicate AllReturn(retries: int, file: File, w: World) {
    && w.readable(file) > file.observations
    && forall i: nat | i < file.observations :: PostReturns(retries, w.replies(file, i))
  }

  /** Posts the observations of a file in order; the first read or post that raises ends it. */
  method ForwardFile(retries: int, file: File, w: World) returns (returned: bool, delivered: nat)
    ensures returned <==> AllReturn(retries, file, w)
    ensures returned ==> delivered == file.observations
    ensures !returned ==> delivered <= file.observations && (delivered == w.readable(file) ||
                          (delivered < file.observations && !PostReturns(retries, w.replies(file, delivered))))
    ensures delivered <= w.readable(file) && forall i: nat | i < delivered :: PostReturns(retries, w.replies(file, i))
  {
    hide PostReturns;
    delivered := 0;
    while delivered < file.observations
      invariant delivered <= file.observations && delivered <= w.readable(file)
      invariant forall i: nat | i < delivered :: PostReturns(retries, w.replies(file, i))
    {
      if delivered == w.readable(file) {
        return false, delivered;
      }
      var ok, _ := PostEvent(retries, w.replies(file, delivered));
      if !ok {
        return false, delivered;
      }
      delivered := delivered + 1;
    }
    returned := delivered < w.readable(file);
  }

  /** The round archives the file. */
  ghost predicate Leaves(retries: int, file: File, w: World) {
    AllReturn(retries, file, w) && w.moves(file)
  }

  /** The files that a round archives, or those that it leaves, in the order of the directory. */
  ghost function ByOutcome(files: seq<File>, retries: int, w: World, archived: bool): seq<File> {
    if files == [] then []
    else
      var last := files[|files| - 1];
      ByOutcome(files[..|files| - 1], retries, w, archived) + if Leaves(retries, last, w) == archived then [last] else []
  }

  function Observations(files: seq<File>): nat {
    if files == [] then 0 else Observations(files[..|files| - 1]) + files[|files| - 1].observations
  }

  /** Sealed captures: a file that holds more than a capture header. */
  function Sealed(files: seq<File>): seq<File> {
    if files == [] then []
    else
      var last := files[|files| - 1];
      Sealed(files[..|files| - 1]) + if last.size > PCAP_HEADER_SIZE then [last] else []
  }

  function Fresh(files: seq<File>, cutoff: int): seq<File> {
    if files == [] then []
    else
      var last := files[|files| - 1];
      Fresh(files[..|files| - 1], cutoff) + if last.modified >= cutoff then [last] else []
  }

  /** A temporary file is sealed exactly if it holds more than the 24 octets of a capture header. */
  lemma SealedAre(file: File)
    ensures Sealed([file]) ==
            if file.size > 24 then [file] else []
  {
    assert [file][..0] == [];
  }

  lemma {:induction false} SealedAreInOrder(files: seq<File>, more: seq<File>)
    ensures Sealed(files + more) == Sealed(files) + Sealed(more)
  {
    if more == [] {
      assert files + more == files;
    } else {
      var n, all := |more| - 1, files + more;
      assert all[..|all| - 1] == files + more[..n] && all[|all| - 1] == more[n];
      SealedAreInOrder(files, more[..n]);
      var last := if more[n].size > PCAP_HEADER_SIZE then [more[n]] else [];
      assert Sealed(more) == Sealed(more[..n]) + last;
      Associative(Sealed(files), Sealed(more[..n]), last);
    }
  }

  /** An archived file is kept exactly if it is not older than the cutoff. */
  lemma FreshAre(file: File, cutoff: int)
    ensures Fresh([file], cutoff) ==
            if file.modified >= cutoff then [file] else []
  {
    assert [file][..0] == [];
  }

  lemma {:induction false} FreshAreInOrder(files: seq<File>, more: seq<File>, cutoff: int)
    ensures Fresh(files + more, cutoff) == Fresh(files, cutoff) + Fresh(more, cutoff)
  {
    if more == [] {
      assert files + more == files;
    } else {
      var n, all := |more| - 1, files + more;
      assert all[..|all| - 1] == files + more[..n] && all[|all| - 1] == more[n];
      FreshAreInOrder(files, more[..n], cutoff);
      var last := if more[n].modified >= cutoff then [more[n]] else [];
      assert Fresh(more, cutoff) == Fresh(more[..n], cutoff) + last;
      Associative(Fresh(files, cutoff), Fresh(more[..n], cutoff), last);
    }
  }

  /** A file is archived exactly if it can be read to its end, all its posts return, and it can be moved. */
  lemma OutcomesAre(file: File, retries: int, w: World, archived: bool)
    ensures ByOutcome([file], retries, w, archived) ==
            if (w.readable(file) > file.observations && w.moves(file) &&
                (forall i: nat | i < file.observations :: PostReturns(retries, w.replies(file, i)))) == archived
            then [file] else []
  {
    hide PostReturns;
    assert [file][..0] == [];
  }

  lemma {:induction false} OutcomesAreInOrder(files: seq<File>, more: seq<File>, retries: int, w: World, archived: bool)
    ensures ByOutcome(files + more, retries, w, archived) == ByOutcome(files, retries, w, archived) + ByOutcome(more, retries, w, archived)
  {
    if more == [] {
      assert files + more == files;
    } else {
      var n, all := |more| - 1, files + more;
      assert all[..|all| - 1] == files + more[..n] && all[|all| - 1] == more[n];
      OutcomesAreInOrder(files, more[..n], retries, w, archived);
      var last := if Leaves(retries, more[n], w) == archived then [more[n]] else [];
      assert ByOutcome(more, retries, w, archived) == ByOutcome(more[..n], retries, w, archived) + last;
      Associative(ByOutcome(files, retries, w, archived), ByOutcome(more[..n], retries, w, archived), last);
    }
  }

  lemma UpTo<T>(s: seq<T>, n: nat)
    requires n < |s|
    ensures s[..n + 1][..n] == s[..n] && s[..n + 1][n] == s[n]
  {
  }

  const DAY := 86400

  class Spool {
    var writing: seq<File>
    var ready: seq<File>
    var archive: seq<File>

    /** At start-up: temporary files are sealed, or removed when there is nothing in them. */
    method RecoverAbandonedCaptures() returns (recovered: nat)
      modifies this`writing, this`ready
      ensures writing == [] && ready == old(ready) + Sealed(old(writing))
      ensures recovered == |Sealed(old(writing))|
    {
      recovered := 0;
      var files, sealed := writing, [];
      for n := 0 to |files|
        invariant ready == old(ready) + sealed && sealed == Sealed(files[..n])
        invariant recovered == |sealed|
      {
        UpTo(files, n);
        var file := files[n];
        if file.size <= PCAP_HEADER_SIZE {
          continue;
        }
        ready := ready + [file];
        sealed := sealed + [file];
        recovered := recovered + 1;
      }
      assert files[..|files|] == files;
      writing := [];
    }

    /** One round over the sealed captures: a file goes to the archive exactly when all of it was read and posted and it can be moved. */
    method ForwardRound(retries: int, w: World) returns (deliveredTotal: nat, failures: nat)
      modifies this`ready, this`archive
      ensures archive == old(archive) + ByOutcome(old(ready), retries, w, true)
      ensures ready == ByOutcome(old(ready), retries, w, false)
      ensures deliveredTotal == Observations(ByOutcome(old(ready), retries, w, true))
      ensures failures == |ready|
    {
      hide AllReturn;
      deliveredTotal, failures := 0, 0;
      var captures, kept := ready, [];
      ghost var moved := [];
      for n := 0 to |captures|
        invariant unchanged(`ready) && archive == old(archive) + moved
        invariant moved == ByOutcome(captures[..n], retries, w, true)
        invariant kept == ByOutcome(captures[..n], retries, w, false)
        invariant deliveredTotal == Observations(moved) && failures == |kept|
      {
        UpTo(captures, n);
        var path := captures[n];
        var returned, delivered := ForwardFile(retries, path, w);
        if returned && w.moves(path) {
          archive := archive + [path];
          assert (moved + [path])[..|moved|] == moved;
          moved := moved + [path];
          deliveredTotal := deliveredTotal + delivered;
        } else {
          kept := kept + [path];
          failures := failures + 1;
        }
      }
      assert captures[..|captures|] == captures;
      ready := kept;
    }

    /** Archived files older than the retention period are deleted; without a period none is. */
    method EnforceArchiveRetention(retentionDays: int, now: int) returns (removed: nat)
      modifies this`archive
      ensures archive == if retentionDays <= 0 then old(archive) else Fresh(old(archive), now - retentionDays * 86400)
      ensures removed == |old(archive)| - |archive|
    {
      if retentionDays <= 0 {
        return 0;
      }
      removed := 0;
      var cutoff := now - retentionDays * DAY;
      var files, kept := archive, [];
      for n := 0 to |files|
        invariant unchanged(this) && kept == Fresh(files[..n], cutoff) && removed == n - |kept|
      {
        UpTo(files, n);
        if files[n].modified < cutoff {
          removed := removed + 1;
        } else {
          kept := kept + [files[n]];
        }
      }
      assert files[..|files|] == files;
      archive := kept;
    }
  }

  /** A round loses and duplicates no file. */
  lemma {:induction false} RoundKeepsFiles(files: seq<File>, retries: int, w: World)
    ensures multiset(ByOutcome(files, retries, w, true)) + multiset(ByOutcome(files, retries, w, false)) == multiset(files)
  {
    hide Leaves;
    if files != [] {
      var front, last := files[..|files| - 1], files[|files| - 1];
      assert files == front + [last];
      RoundKeepsFiles(front, retries, w);
    }
  }

  /** What a round archives has had every observation accepted, as long as posts are made at all. */
  lemma {:induction false} ArchivedWereAccepted(files: seq<File>, retries: int, w: World, file: File, i: nat)
    requires retries >= 0 && file in ByOutcome(files, retries, w, true) && i < file.observations
    ensures exists k: nat :: k <= retries && AcceptedAt(w.replies(file, i), k)
  {
    var last := files[|files| - 1];
    if Leaves(retries, last, w) && file == last {
      assert PostReturns(retries, w.replies(file, i));
    } else {
      ArchivedWereAccepted(files[..|files| - 1], retries, w, file, i);
    }
  }
}
