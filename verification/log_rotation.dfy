/** The rotating log file. File 0 is the current one and file i its i-th backup. */
module LogRotation {
  import opened Base

  type File = seq<string>

  /** The bytes of a file: each line and its newline. */
  function Size(file: File): nat {
    if file == [] then 0 else Size(file[..|file| - 1]) + |file[|file| - 1]| + 1
  }

  function Lookup(files: map<nat, File>, i: nat): Option<File> {
    if i in files then Some(files[i]) else None
  }

  function Content(files: map<nat, File>, i: nat): File {
    if i in files then files[i] else []
  }

  /** The lines kept: backup `n` down to backup 1, then the current file. */
  function History(files: map<nat, File>, n: nat): seq<string> {
    if n == 0 then Content(files, 0) else Content(files, n) + History(files, n - 1)
  }

  /** The files once the renames onto backups n, n-1, .., i + 1 have been made: each of these is
      replaced by its predecessor where there is one, and the predecessor is gone. */
  ghost predicate Shifted(before: map<nat, File>, after: map<nat, File>, n: nat, i: nat) {
    forall k: nat :: Lookup(after, k) ==
      if k < i || k > n || (k == i && i == n) then Lookup(before, k)
      else if k == i then None
      else if k - 1 in before then Some(before[k - 1])
      else if k == n then Lookup(before, n)
      else None
  }

  lemma {:induction false} HistoryMoves(before: map<nat, File>, after: map<nat, File>, n: nat, k: nat)
    requires Shifted(before, after, n, 0) && 0 < k < n
    ensures History(after[0 := []], k) == History(before, k - 1)
  {
    var reopened := after[0 := []];
    assert Lookup(after, k) == Lookup(before, k - 1);
    assert Content(reopened, k) == Content(before, k - 1);
    if k > 1 {
      HistoryMoves(before, after, n, k - 1);
    } else {
      assert History(reopened, 0) == [];
    }
  }

  /** A rotation loses the oldest backup if the one before it is there to replace it, and
      otherwise nothing, whichever backups exist. */
  lemma RotationKeeps(before: map<nat, File>, after: map<nat, File>, n: nat)
    requires Shifted(before, after, n, 0) && n > 0
    ensures History(after[0 := []], n) == if n - 1 in before then History(before, n - 1) else History(before, n)
  {
    var reopened := after[0 := []];
    assert Lookup(after, n) == if n - 1 in before then Some(before[n - 1]) else Lookup(before, n);
    if n == 1 {
      assert History(reopened, 0) == [];
      assert History(before, 1) == Content(before, 1) + Content(before, 0);
    } else {
      HistoryMoves(before, after, n, n - 1);
      assert History(reopened, n) == Content(reopened, n) + History(before, n - 2);
      assert History(before, n) == Content(before, n) + (Content(before, n - 1) + History(before, n - 2));
    }
  }

  /** What backup `k` of `n` is after a rotation: the file before it, where there is one, and of the
      rest only the oldest backup stays where it is. */
  function Replaced(before: map<nat, File>, n: nat, k: nat): Option<File>
    requires k > 0
  {
    if k - 1 in before then Some(before[k - 1]) else if k == n then Lookup(before, n) else None
  }

  /** What a rotation loses. */
  function Lost(before: map<nat, File>, n: nat): seq<string> {
    if n > 0 && n - 1 in before then Content(before, n) else []
  }

  lemma {:induction false} HistoryGrows(files: map<nat, File>, n: nat, line: string)
    ensures History(files[0 := Content(files, 0) + [line]], n) == History(files, n) + [line]
  {
    if n > 0 {
      HistoryGrows(files, n - 1, line);
      var more := files[0 := Content(files, 0) + [line]];
      assert Content(more, n) == Content(files, n);
      assert Content(files, n) + (History(files, n - 1) + [line]) == Content(files, n) + History(files, n - 1) + [line];
    }
  }

  lemma SizeGrows(file: File, line: string)
    ensures Size(file + [line]) == Size(file) + |line| + 1
  {
    assert (file + [line])[..|file|] == file;
  }

  lemma {:induction false} BoundedNats(s: set<nat>, n: nat)
    requires forall k :: k in s ==> k <= n
    ensures |s| <= n + 1
  {
    if n == 0 {
      assert s <= {0};
      assert s == {0} || s == {};
    } else {
      BoundedNats(s - {n}, n - 1);
      assert s <= (s - {n}) + {n};
      if n in s {
        assert |s| == |s - {n}| + 1;
      } else {
        assert s - {n} == s;
      }
    }
  }

  class FileSink {
    const maxSize: nat
    const backupCount: nat
    var files: map<nat, File>
    var currentSize: nat
    /** Every line logged, and those no longer in any file. */
    ghost var logged: seq<string>
    ghost var lost: seq<string>
    /** The rotations so far, and the bytes of the current file that the counted size leaves out. */
    ghost var rotations: nat
    ghost var uncounted: nat

    /** The files, oldest backup first, are the end of everything logged, line by line. The size
        counted is that of the current file exactly if there is a backup or no rotation yet. */
    ghost predicate Valid()
      reads this
    {
      && 0 in files
      && logged == lost + History(files, backupCount)
      && Size(files[0]) == currentSize + uncounted
      && (uncounted == 0 <==> backupCount > 0 || rotations == 0)
    }

    /** The sink over what earlier runs left, with any backups missing. */
    constructor (files: map<nat, File>, maxSize: nat, backupCount: nat)
      ensures Valid() && logged == History(this.files, backupCount) && lost == [] && rotations == 0
      ensures this.files == files[0 := Content(files, 0)]
      ensures this.maxSize == maxSize && this.backupCount == backupCount
    {
      this.maxSize, this.backupCount := maxSize, backupCount;
      this.files := files[0 := Content(files, 0)];
      currentSize := Size(Content(files, 0));
      logged := History(files[0 := Content(files, 0)], backupCount);
      lost := [];
      rotations, uncounted := 0, 0;
    }

    /** Renames fail, without effect, where there is nothing to rename. */
    method Rename(source: nat, target: nat)
      requires source != target
      modifies this`files
      ensures files == if source in old(files) then (old(files) - {source})[target := old(files)[source]]
                       else old(files)
    {
      if source in files {
        files := (files - {source})[target := files[source]];
      }
    }

    method ShiftBackups()
      modifies this`files
      ensures Shifted(old(files), files, backupCount, 0)
    {
      var i := backupCount;
      while i >= 1
        invariant 0 <= i <= backupCount
        invariant Shifted(old(files), files, backupCount, i)
      {
        ghost var before := files;
        assert Lookup(files, i - 1) == Lookup(old(files), i - 1);
        Rename(i - 1, i);
        ShiftStep(old(files), before, files, backupCount, i);
        i := i - 1;
      }
    }

    /** Called once something has been written to the current file. */
    method Rotate()
      requires Valid() && files[0] != []
      modifies this
      ensures Valid() && logged == old(logged) && currentSize == 0 && rotations == old(rotations) + 1
      ensures backupCount == 0 ==> uncounted == old(uncounted + currentSize)
      ensures lost == old(lost) + Lost(old(files), backupCount)
      ensures backupCount > 0 ==> files[0] == []
      ensures backupCount == 0 ==> files == old(files)
      ensures forall k: nat :: k > backupCount ==> Lookup(files, k) == Lookup(old(files), k)
      ensures forall k: nat :: 0 < k <= backupCount ==> Lookup(files, k) == Replaced(old(files), backupCount, k)
    {
      hide Shifted, Replaced, History, Lookup, Lost;
      ShiftBackups();
      Reopening(old(files), files, backupCount);
      SizePositive(old(files)[0]);
      if 0 !in files {
        files := files[0 := []];
      }
      uncounted := if backupCount > 0 then 0 else uncounted + currentSize;
      rotations := rotations + 1;
      currentSize := 0;
      lost := lost + Lost(old(files), backupCount);
    }

    method Append(line: string)
      requires Valid()
      modifies this
      ensures Valid() && logged == old(logged) + [line] && files[0] != []
      ensures files == old(files)[0 := old(files)[0] + [line]]
      ensures lost == old(lost) && rotations == old(rotations) && currentSize == old(currentSize) + |line| + 1
      ensures forall k: nat :: k > 0 ==> Lookup(files, k) == Lookup(old(files), k)
      ensures Lost(files, backupCount) == Lost(old(files), backupCount)
    {
      Appending(files, backupCount, line);
      files := files[0 := files[0] + [line]];
      logged := logged + [line];
      currentSize := currentSize + |line| + 1;
    }

    /** `rotated` says whether the line filled the file. The line is always the last one kept. */
    method WriteLine(line: string) returns (rotated: bool)
      requires Valid()
      modifies this
      ensures Valid()
      ensures logged == old(logged) + [line]
      ensures rotated <==> maxSize > 0 && old(currentSize) + |line| + 1 >= maxSize
      ensures lost == old(lost) + if rotated then Lost(old(files), backupCount) else []
      ensures forall k: nat :: k > backupCount ==> Lookup(files, k) == Lookup(old(files), k)
      ensures maxSize > 0 ==> currentSize < maxSize
      ensures rotated ==> currentSize == 0
      ensures rotations == old(rotations) + if rotated then 1 else 0
      ensures currentSize == Size(files[0]) <==> backupCount > 0 || rotations == 0
      ensures !rotated || backupCount == 0 ==> files == old(files)[0 := old(files)[0] + [line]]
      ensures rotated && backupCount > 0 ==> files[0] == [] && Lookup(files, 1) == Some(old(files)[0] + [line])
      ensures rotated ==> forall k: nat :: 1 < k <= backupCount ==>
                Lookup(files, k) == Replaced(old(files), backupCount, k)
    {
      Append(line);
      rotated := maxSize > 0 && currentSize >= maxSize;
      if rotated {
        Rotate();
      }
    }

    /** With no backups left over from a larger count there are at most backup_count + 1 files. */
    lemma FileCount()
      requires Valid() && forall k: nat :: k > backupCount ==> Lookup(files, k) == None
      ensures |files| <= backupCount + 1
    {
      forall k | k in files
        ensures k <= backupCount
      {
        assert Lookup(files, k).Some?;
      }
      BoundedNats(files.Keys, backupCount);
    }
  }

  lemma ShiftStep(start: map<nat, File>, before: map<nat, File>, after: map<nat, File>, n: nat, i: nat)
    requires 1 <= i <= n && Shifted(start, before, n, i)
    requires after == if i - 1 in before then (before - {i - 1})[i := before[i - 1]] else before
    ensures Shifted(start, after, n, i - 1)
  {
    assert Lookup(before, i - 1) == Lookup(start, i - 1);
    assert Lookup(before, i) == if i == n then Lookup(start, n) else None;
    forall k: nat
      ensures Lookup(after, k) ==
        if k < i - 1 || k > n || (k == i - 1 && i - 1 == n) then Lookup(start, k)
        else if k == i - 1 then None
        else if k - 1 in start then Some(start[k - 1])
        else if k == n then Lookup(start, n)
        else None
    {
      assert k != i && k != i - 1 ==> Lookup(after, k) == Lookup(before, k);
    }
  }

  /** Opening the current file again creates it if the renames have moved it away. */
  lemma Reopening(before: map<nat, File>, after: map<nat, File>, n: nat)
    requires Shifted(before, after, n, 0) && 0 in before
    ensures var now := if 0 in after then after else after[0 := []];
            && History(before, n) == Lost(before, n) + History(now, n)
            && (if n > 0 then now[0] == [] else now == before)
            && (forall k: nat :: k > n ==> Lookup(now, k) == Lookup(before, k))
            && (forall k: nat :: 0 < k <= n ==> Lookup(now, k) == Replaced(before, n, k))
  {
    forall k: nat | 0 < k <= n
      ensures Lookup(if 0 in after then after else after[0 := []], k) == Replaced(before, n, k)
    {
      assert Lookup(after, k) == Replaced(before, n, k);
    }
    assert Lookup(after, 0) == if n == 0 then Lookup(before, 0) else None;
    if n > 0 {
      RotationKeeps(before, after, n);
      assert History(before, n) == Content(before, n) + History(before, n - 1);
    } else {
      assert forall k: nat :: Lookup(after, k) == Lookup(before, k);
      SameFiles(before, after);
    }
  }

  lemma Appending(files: map<nat, File>, n: nat, line: string)
    requires 0 in files
    ensures var more := files[0 := files[0] + [line]];
            && History(more, n) == History(files, n) + [line]
            && Size(more[0]) == Size(files[0]) + |line| + 1
            && Lost(more, n) == Lost(files, n)
            && forall k: nat :: k > 0 ==> Lookup(more, k) == Lookup(files, k)
  {
    HistoryGrows(files, n, line);
    SizeGrows(files[0], line);
  }

  lemma SizePositive(file: File)
    requires file != []
    ensures Size(file) > 0
  {
  }

  lemma SameFiles(before: map<nat, File>, after: map<nat, File>)
    requires forall k: nat :: Lookup(after, k) == Lookup(before, k)
    ensures before == after
  {
    assert forall k: nat :: (k in after <==> Lookup(after, k).Some?) && (k in before <==> Lookup(before, k).Some?);
  }
}
