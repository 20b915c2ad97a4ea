/** The files of a host: a path and its content, if there is such a file. */
module Disks {
  import opened Wrappers

  type Disk = map<string, string>

  function Look(d: Disk, p: string): Option<string> { if p in d then Some(d[p]) else None }

  /** What reading p gives; the hidden files are there, but cannot be read. */
  function Read(d: Disk, hidden: set<string>, p: string): Option<string> { if p in hidden then None else Look(d, p) }

  /** The disk on which p holds this content, or is no longer there. */
  function Left(d: Disk, p: string, content: Option<string>): Disk {
    if content.Some? then d[p := content.value] else d - {p}
  }

  lemma SameLooks(d: Disk, e: Disk)
    requires forall p :: Look(d, p) == Look(e, p)
    ensures d == e
  {
    forall p ensures (p in d <==> p in e) && (p in d ==> d[p] == e[p]) {
      assert Look(d, p) == Look(e, p);
    }
  }
}
