// The host file system as the repository's code sees it: regular files, directories,
// and the primitive operations of Go's os package that the code calls.
//
// Whether the operating system lets a call succeed is the environment's choice, given
// to each operation as an argument. `history` records every state the disk has been
// in, so that a crash can be placed after any primitive step.
module HostFiles {
  import opened Text

  datatype Disk = Disk(files: map<string, string>, dirs: set<string>)

  function WithFile(d: Disk, path: string, data: string): Disk {
    Disk(d.files[path := data], d.dirs)
  }

  function WithoutFile(d: Disk, path: string): Disk {
    Disk(d.files - {path}, d.dirs)
  }

  function WithDirs(d: Disk, dirs: set<string>): Disk {
    Disk(d.files, d.dirs + dirs)
  }

  function FileAt(d: Disk, path: string): Option<string> {
    if path in d.files then Some(d.files[path]) else None
  }

  /** os.Rename of a regular file, which is atomic. */
  function Renamed(d: Disk, from: string, to: string): Disk
    requires from in d.files
  {
    Disk((d.files - {from})[to := d.files[from]], d.dirs)
  }

  /** How an os.WriteFile ends: denied before the file is touched, stopped after some of the
      text (the file was truncated first), or with the whole text written. */
  datatype WriteEnd = Denied | Stopped(kept: nat) | Whole

  /** What a write that was not denied leaves in the file. */
  function Landed(w: WriteEnd, data: string): string {
    if w.Stopped? && w.kept < |data| then data[..w.kept] else data
  }

  /** A whole write leaves the text, and one that stopped leaves as much of its front as was
      written. */
  lemma LandedIs(w: WriteEnd, data: string)
    ensures w.Whole? ==> Landed(w, data) == data
    ensures w.Stopped? ==> Landed(w, data) <= data && |Landed(w, data)| == if w.kept < |data| then w.kept else |data|
  {
  }

  class Host {
    var disk: Disk
    ghost var history: seq<Disk>

    constructor (d: Disk)
      ensures disk == d && history == []
    {
      disk := d;
      history := [];
    }

    /** Every mutation goes through here. */
    method Become(d: Disk)
      modifies this
      ensures disk == d && history == old(history) + [d]
    {
      disk := d;
      history := history + [d];
    }

    method Read(path: string) returns (data: Option<string>)
      ensures data == FileAt(disk, path)
    {
      data := FileAt(disk, path);
    }

    /** os.WriteFile and os.Create: replace the whole content. */
    method Write(path: string, data: string)
      modifies this
      ensures disk == WithFile(old(disk), path, data) && history == old(history) + [disk]
    {
      Become(WithFile(disk, path, data));
    }

    /** A write to an open file: append. */
    method Append(path: string, data: string)
      requires path in disk.files
      modifies this
      ensures disk == WithFile(old(disk), path, old(disk).files[path] + data) && history == old(history) + [disk]
    {
      Become(WithFile(disk, path, disk.files[path] + data));
    }

    method Remove(path: string)
      modifies this
      ensures disk == WithoutFile(old(disk), path) && history == old(history) + [disk]
    {
      Become(WithoutFile(disk, path));
    }

    method Rename(from: string, to: string)
      requires from in disk.files
      modifies this
      ensures disk == Renamed(old(disk), from, to) && history == old(history) + [disk]
    {
      Become(Renamed(disk, from, to));
    }

    method MakeDirs(dirs: set<string>)
      modifies this
      ensures disk == WithDirs(old(disk), dirs) && history == old(history) + [disk]
    {
      Become(WithDirs(disk, dirs));
    }
  }
}
