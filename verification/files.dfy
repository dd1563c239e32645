/**
 * An abstract file system: just enough of `tempnam`, `fopen`, `fwrite`,
 * `fclose` and `unlink` for the mailer's temporary attachment files.
 * Paths and handles are opaque names drawn from one counter, so every
 * path `tempnam` returns and every handle `fopen` returns is new.
 */
module Files {

  /** A file name. */
  datatype Path = Path(id: nat)

  /** An open stream resource. */
  datatype Handle = Handle(id: nat)

  class FileSystem {
    /** The files that exist, with their contents. */
    var files: map<Path, string>
    /** The handles that are open, each with the file it was opened on. */
    var open: map<Handle, Path>
    /** The next name not yet handed out. */
    var next: nat
    /** How many files the file system can hold; `tempnam` fails once it is full. */
    const capacity: nat

    /** Every name in use was handed out before `next`. */
    ghost predicate Valid()
      reads this
    {
      && (forall p :: p in files ==> p.id < next)
      && (forall h :: h in open ==> h.id < next)
    }

    /** A file system holding `initial`, whose names are all below `unused`, with room for `capacity` files. */
    constructor(initial: map<Path, string>, unused: nat, capacity: nat)
      requires forall p :: p in initial ==> p.id < unused
      ensures Valid()
      ensures files == initial && open == map[] && this.capacity == capacity
    {
      files := initial;
      open := map[];
      next := unused;
      this.capacity := capacity;
    }

    /**
     * `tempnam`: creates an empty file under a name that did not exist, and
     * returns that name; `ok` is false, and nothing changes, when the file
     * system is full.
     */
    method TempNam() returns (p: Path, ok: bool)
      requires Valid()
      modifies this
      ensures Valid()
      ensures ok <==> |old(files)| < capacity
      ensures ok ==> p !in old(files) && files == old(files)[p := ""]
      ensures !ok ==> files == old(files)
      ensures open == old(open)
    {
      if |files| < capacity {
        p := Path(next);
        files := files[p := ""];
        next := next + 1;
        ok := true;
      } else {
        p := Path(next);
        ok := false;
      }
    }

    /** `fopen($p, 'r+')`: a new handle on an existing file, positioned at its start. */
    method FOpen(p: Path) returns (h: Handle)
      requires Valid()
      requires p in files
      modifies this
      ensures Valid()
      ensures h !in old(open)
      ensures open == old(open)[h := p]
      ensures files == old(files)
    {
      h := Handle(next);
      open := open[h := p];
      next := next + 1;
    }

    /**
     * `fwrite` through a handle at the start of its file: `data` overwrites
     * the first `|data|` characters and the rest of the file is kept.
     */
    method FWrite(h: Handle, data: string)
      requires Valid()
      requires h in open && open[h] in files
      modifies this
      ensures Valid()
      ensures files == old(files)[old(open)[h] := Overwrite(old(files)[old(open)[h]], data)]
      ensures open == old(open)
    {
      var p := open[h];
      files := files[p := Overwrite(files[p], data)];
    }

    /** `fclose`: the handle is no longer open. */
    method FClose(h: Handle)
      requires Valid()
      modifies this
      ensures Valid()
      ensures open == old(open) - {h}
      ensures files == old(files)
    {
      open := open - {h};
    }

    /** `unlink`: the file no longer exists. */
    method Unlink(p: Path)
      requires Valid()
      modifies this
      ensures Valid()
      ensures files == old(files) - {p}
      ensures open == old(open)
    {
      files := files - {p};
    }
  }

  /** The file `before` after `data` is written over its start. */
  function Overwrite(before: string, data: string): (r: string)
    ensures |r| == if |data| < |before| then |before| else |data|
    ensures r[..|data|] == data
    ensures forall i :: |data| <= i < |before| ==> r[i] == before[i]
  {
    if |data| < |before| then data + before[|data|..] else data
  }
}
