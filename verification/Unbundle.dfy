/** Writing the files a bundle unpacks to, without touching files of other bundles.  The
    bundle records are files of the same tree, below `.bundle`. */
module Unbundle {
  import opened Wrappers

  type Addr = seq<string>

  datatype Record = Bundle | ChildOf(parent: Addr)

  /** A file's bytes, seen as what reading them as a bundle record gives. */
  datatype Content = Raw(bytes: string) | AsRecord(r: Record)

  type Disk = map<Addr, Content>

  datatype Element = Element(addr: Addr, contents: Content)

  const DIR := ".bundle"
  const SUFFIX := ".bun.ron"

  /** `BundleMapFile::path`, below the prefix. */
  function RecordPath(addr: Addr): Addr {
    [DIR] + if addr == [] then [SUFFIX] else addr[..|addr| - 1] + [addr[|addr| - 1] + SUFFIX]
  }

  lemma RecordPathInjective(a: Addr, b: Addr)
    requires "" !in a && "" !in b && RecordPath(a) == RecordPath(b)
    ensures a == b
  {
    var x, y := RecordPath(a), RecordPath(b);
    assert a != [] ==> a[|a| - 1] in a && |x[|x| - 1]| > |SUFFIX|;
    assert b != [] ==> b[|b| - 1] in b && |y[|y| - 1]| > |SUFFIX|;
    if a != [] && b != [] {
      var n := |a| - 1;
      assert a[..n] == x[1..][..n] && b[..n] == y[1..][..n];
      assert a[n] == x[|x| - 1][..|a[n]|] && b[n] == y[|y| - 1][..|b[n]|];
      assert a == a[..n] + [a[n]] && b == b[..n] + [b[n]];
    }
  }

  // ------------------------------------------------------------ one element

  /** `BundleMapFile::read`: an unreadable record is an error. */
  function ReadRecord(d: Disk, addr: Addr): Result<Option<Record>> {
    if RecordPath(addr) !in d then Ok(None)
    else match d[RecordPath(addr)]
      case Raw(_) => Err
      case AsRecord(r) => Ok(Some(r))
  }

  /** Without `overbundle`, an existing file is only overwritten if its record says it is a
      bundle or belongs to this very parent. */
  predicate MayWrite(d: Disk, parent: Addr, addr: Addr, overbundle: bool) {
    overbundle || addr !in d ||
    match ReadRecord(d, addr)
    case Err => false
    case Ok(None) => false
    case Ok(Some(Bundle)) => true
    case Ok(Some(ChildOf(p))) => p == parent
  }

  datatype Written = Written(disk: Disk, ok: bool)

  function WriteElement(d: Disk, parent: Addr, e: Element, overbundle: bool): Written {
    if MayWrite(d, parent, e.addr, overbundle)
    then Written(d[e.addr := e.contents][RecordPath(e.addr) := AsRecord(ChildOf(parent))], true)
    else Written(d, false)
  }

  /** All elements of one bundle, in order, up to the first that may not be written. */
  function WriteElements(d: Disk, parent: Addr, es: seq<Element>, overbundle: bool): Written
    decreases |es|
  {
    if es == [] then Written(d, true)
    else
      var w := WriteElement(d, parent, es[0], overbundle);
      if w.ok then WriteElements(w.disk, parent, es[1..], overbundle) else w
  }

  class Tree {
    var disk: Disk

    /** `workflow::unbundle::write_unbundle_element`. */
    method WriteUnbundleElement(parent: Addr, e: Element, overbundle: bool) returns (ok: bool)
      modifies this
      ensures WriteElement(old(disk), parent, e, overbundle) == Written(disk, ok)
    {
      if !overbundle && e.addr in disk {
        match ReadRecord(disk, e.addr) {
          case Err => return false;
          case Ok(Some(Bundle)) =>
          case Ok(Some(ChildOf(other))) =>
            if parent != other {
              return false;
            }
          case Ok(None) => return false;
        }
      }
      disk := disk[e.addr := e.contents];
      disk := disk[RecordPath(e.addr) := AsRecord(ChildOf(parent))];
      ok := true;
    }

    /** `UnbundleReport::write_to_disk`: its own copy of the check, in a loop.  It comes to
        writing the elements one after the other, and stops where that would. */
    method WriteToDisk(parent: Addr, elements: Option<seq<Element>>, overbundle: bool) returns (ok: bool)
      modifies this
      ensures elements.None? ==> ok && disk == old(disk)
      ensures elements.Some? ==> WriteElements(old(disk), parent, elements.value, overbundle) == Written(disk, ok)
    {
      if elements.None? {
        return true;
      }
      var es := elements.value;
      for i := 0 to |es|
        invariant WriteElements(old(disk), parent, es, overbundle) == WriteElements(disk, parent, es[i..], overbundle)
      {
        var addr := es[i].addr;
        assert es[i..][1..] == es[i + 1..];
        if !overbundle && addr in disk {
          match ReadRecord(disk, addr) {
            case Err => return false;
            case Ok(None) => return false;
            case Ok(Some(record)) =>
              match record {
                case Bundle =>
                case ChildOf(p) =>
                  if p != parent {
                    return false;
                  }
              }
          }
        }
        disk := disk[addr := es[i].contents];
        disk := disk[RecordPath(addr) := AsRecord(ChildOf(parent))];
      }
      ok := true;
    }
  }

  // ------------------------------------------------------------- whole runs

  /** One unbundling: the bundle's address and what it unpacks to. */
  datatype Unbundling = Unbundling(parent: Addr, elements: seq<Element>)

  /** Runs without `overbundle`; a failed unbundling keeps what it wrote before failing. */
  function Run(d: Disk, run: seq<Unbundling>): Disk
    decreases |run|
  {
    if run == [] then d
    else Run(WriteElements(d, run[0].parent, run[0].elements, false).disk, run[1..])
  }

  /** A resource file of the repository. */
  predicate Ordinary(addr: Addr) {
    addr != [] && "" !in addr && addr[0] != DIR
  }

  /** Not itself the bundle record of a resource file. */
  ghost predicate Harmless(addr: Addr) {
    "" !in addr && forall a :: Ordinary(a) ==> addr != RecordPath(a)
  }

  ghost predicate HarmlessRun(run: seq<Unbundling>) {
    forall i, j :: 0 <= i < |run| && 0 <= j < |run[i].elements| ==> Harmless(run[i].elements[j].addr)
  }

  /** An existing file nobody but `parent` may overwrite: it has no record, or one that
      names `parent`. */
  predicate OwnedBy(d: Disk, addr: Addr, owner: Option<Addr>) {
    && addr in d
    && ReadRecord(d, addr) == Ok(if owner.Some? then Some(ChildOf(owner.value)) else None)
  }

  /** Writing an element leaves the ownership of a resource file alone, and its contents,
      too, unless the owner itself writes. */
  ghost predicate Respects(d: Disk, parent: Addr, e: Element, addr: Addr, owner: Option<Addr>)
    requires addr in d
  {
    var d' := WriteElement(d, parent, e, false).disk;
    OwnedBy(d', addr, owner) && (owner != Some(parent) ==> d'[addr] == d[addr])
  }

  lemma WriteElementRespects(d: Disk, parent: Addr, e: Element, addr: Addr, owner: Option<Addr>)
    requires Harmless(e.addr) && Ordinary(addr) && OwnedBy(d, addr, owner)
    ensures Respects(d, parent, e, addr, owner)
  {
    assert RecordPath(e.addr)[0] == DIR && RecordPath(addr)[0] == DIR;
    if RecordPath(e.addr) == RecordPath(addr) {
      RecordPathInjective(e.addr, addr);
    }
  }

  /** Exactly when an element may be written by whatever bundle onto whatever disk: it must
      not be a bundle record itself.  The code does not check that. */
  lemma RespectsIffHarmless(e: Element)
    requires "" !in e.addr
    ensures (forall d, parent, addr, owner :: Ordinary(addr) && OwnedBy(d, addr, owner) ==> Respects(d, parent, e, addr, owner))
       <==> Harmless(e.addr)
  {
    if Harmless(e.addr) {
      forall d, parent, addr, owner | Ordinary(addr) && OwnedBy(d, addr, owner) ensures Respects(d, parent, e, addr, owner) {
        WriteElementRespects(d, parent, e, addr, owner);
      }
    } else {
      var a :| Ordinary(a) && e.addr == RecordPath(a);
      var d: Disk := map[a := Raw("")];
      assert RecordPath(a)[0] == DIR && RecordPath(e.addr)[1] == DIR;
      assert OwnedBy(d, a, None);
      RecordOfRecord(a);
      assert !Respects(d, a, e, a, None);
    }
  }

  lemma RecordOfRecord(a: Addr)
    ensures RecordPath(RecordPath(a)) != RecordPath(a)
  {
    assert |RecordPath(RecordPath(a))| == |RecordPath(a)| + 1;
  }

  lemma {:induction false} WriteElementsRespects(d: Disk, parent: Addr, es: seq<Element>, addr: Addr, owner: Option<Addr>)
    requires Ordinary(addr) && OwnedBy(d, addr, owner)
    requires forall j :: 0 <= j < |es| ==> Harmless(es[j].addr)
    ensures var d' := WriteElements(d, parent, es, false).disk;
      && OwnedBy(d', addr, owner)
      && (owner != Some(parent) ==> d'[addr] == d[addr])
    decreases |es|
  {
    if es != [] {
      WriteElementRespects(d, parent, es[0], addr, owner);
      var w := WriteElement(d, parent, es[0], false);
      if w.ok {
        WriteElementsRespects(w.disk, parent, es[1..], addr, owner);
      }
    }
  }

  /** Over any run, a file without a record never changes, and the recorded parent of an
      existing child never changes; its contents only if that parent is unbundled again. */
  lemma {:induction false} RunRespectsOwnership(d: Disk, run: seq<Unbundling>, addr: Addr, owner: Option<Addr>)
    requires HarmlessRun(run) && Ordinary(addr) && OwnedBy(d, addr, owner)
    ensures OwnedBy(Run(d, run), addr, owner)
    ensures (forall i :: 0 <= i < |run| ==> owner != Some(run[i].parent)) ==> Run(d, run)[addr] == d[addr]
    decreases |run|
  {
    if run != [] {
      WriteElementsRespects(d, run[0].parent, run[0].elements, addr, owner);
      var rest := run[1..];
      assert forall i :: 0 <= i < |rest| ==> rest[i] == run[i + 1];
      RunRespectsOwnership(WriteElements(d, run[0].parent, run[0].elements, false).disk, rest, addr, owner);
    }
  }

  /** An element may itself be a bundle record: two unbundlings then overwrite a file that
      was in no bundle, without `overbundle`. */
  lemma RecordElementBreaksOwnership(name: string, before: Content, after: Content, parent: Addr)
    requires name != "" && name != DIR
    ensures var addr := [name];
      var run := [Unbundling(parent, [Element(RecordPath(addr), AsRecord(Bundle))]), Unbundling(parent, [Element(addr, after)])];
      var d: Disk := map[addr := before];
      && OwnedBy(d, addr, None)
      && addr in Run(d, run) && Run(d, run)[addr] == after
  {
    var addr := [name];
    var r := RecordPath(addr);
    assert r == [DIR, name + SUFFIX];
    assert r[0] == DIR;
    var d: Disk := map[addr := before];
    var e, e' := Element(r, AsRecord(Bundle)), Element(addr, after);
    var d1 := WriteElement(d, parent, e, false).disk;
    assert RecordPath(r)[1] == DIR && r != RecordPath(r);
    assert ReadRecord(d1, addr) == Ok(Some(Bundle));
    var run := [Unbundling(parent, [e]), Unbundling(parent, [e'])];
    assert run[1..] == [Unbundling(parent, [e'])] && run[1..][1..] == [] && [e][1..] == [] && [e'][1..] == [];
    assert WriteElements(d, parent, [e], false).disk == d1;
    var d2 := WriteElement(d1, parent, e', false).disk;
    assert WriteElements(d1, parent, [e'], false).disk == d2;
    assert Run(d1, run[1..]) == d2;
  }
}
