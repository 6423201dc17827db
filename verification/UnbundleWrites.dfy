/** What unbundling writes, when it is refused, and that it can be repeated. */
module UnbundleWrites {
  import opened Wrappers
  import opened Unbundle

  // ------------------------------------------------------------ one element

  /** The record of an address is another file. */
  lemma RecordElsewhere(a: Addr)
    ensures RecordPath(a) != a && |RecordPath(a)| > 1
  {
    assert |RecordPath(a)| == if a == [] then 2 else |a| + 1;
  }

  /** Refused is exactly an existing file that is neither a bundle nor this parent's child,
      unless overbundling; then nothing is written. */
  lemma RefusedIff(d: Disk, parent: Addr, e: Element, overbundle: bool)
    ensures var w := WriteElement(d, parent, e, overbundle);
      && (!w.ok <==> !overbundle && e.addr in d
                     && ReadRecord(d, e.addr) != Ok(Some(Bundle)) && !OwnedBy(d, e.addr, Some(parent)))
      && (!w.ok ==> w.disk == d)
  {}

  /** Otherwise the file has the element's contents and its record names the parent; no other
      file is touched. */
  lemma WrittenIs(d: Disk, parent: Addr, e: Element, overbundle: bool)
    ensures var w := WriteElement(d, parent, e, overbundle);
      w.ok ==>
        && OwnedBy(w.disk, e.addr, Some(parent)) && w.disk[e.addr] == e.contents
        && forall a :: a != e.addr && a != RecordPath(e.addr) ==>
             (a in w.disk <==> a in d) && (a in d ==> w.disk[a] == d[a])
  {
    RecordElsewhere(e.addr);
  }

  /** A child is open to its parent, and closed to every other. */
  lemma ChildIsOpenTo(d: Disk, owner: Addr, parent: Addr, e: Element)
    requires OwnedBy(d, e.addr, Some(owner))
    ensures WriteElement(d, parent, e, false).ok <==> parent == owner
  {}

  // -------------------------------------------------------------- all elements

  predicate OrdinaryAll(es: seq<Element>) {
    forall i :: 0 <= i < |es| ==> Ordinary(es[i].addr)
  }

  /** Elements are written one after the other, each where the ones before left off, and none
      after the first that is refused. */
  lemma {:induction false} WriteElementsAppend(d: Disk, parent: Addr, a: seq<Element>, e: Element, overbundle: bool)
    ensures var w := WriteElements(d, parent, a, overbundle);
      WriteElements(d, parent, a + [e], overbundle) == if w.ok then WriteElement(w.disk, parent, e, overbundle) else w
    decreases |a|
  {
    if a == [] {
      assert a + [e] == [e] && [e][1..] == [];
    } else {
      assert (a + [e])[0] == a[0] && (a + [e])[1..] == a[1..] + [e];
      var w := WriteElement(d, parent, a[0], overbundle);
      if w.ok {
        WriteElementsAppend(w.disk, parent, a[1..], e, overbundle);
      }
    }
  }

  lemma OrdinaryIsHarmless(addr: Addr)
    requires Ordinary(addr)
    ensures Harmless(addr)
  {
    forall a | Ordinary(a) ensures addr != RecordPath(a) {
      assert RecordPath(a)[0] == DIR;
    }
  }

  /** Once a bundle's child, an ordinary file stays it while that bundle is unpacked. */
  lemma StaysChild(d: Disk, parent: Addr, e: Element, addr: Addr, overbundle: bool)
    requires Ordinary(addr) && Ordinary(e.addr) && OwnedBy(d, addr, Some(parent))
    ensures OwnedBy(WriteElement(d, parent, e, overbundle).disk, addr, Some(parent))
  {
    OrdinaryIsHarmless(e.addr);
    assert RecordPath(e.addr)[0] == DIR && RecordPath(addr)[0] == DIR;
    if RecordPath(e.addr) == RecordPath(addr) {
      RecordPathInjective(e.addr, addr);
    }
  }

  lemma {:induction false} StayChildren(d: Disk, parent: Addr, es: seq<Element>, addr: Addr, overbundle: bool)
    requires Ordinary(addr) && OrdinaryAll(es) && OwnedBy(d, addr, Some(parent))
    ensures OwnedBy(WriteElements(d, parent, es, overbundle).disk, addr, Some(parent))
    decreases |es|
  {
    if es != [] {
      StaysChild(d, parent, es[0], addr, overbundle);
      var w := WriteElement(d, parent, es[0], overbundle);
      if w.ok {
        StayChildren(w.disk, parent, es[1..], addr, overbundle);
      }
    }
  }

  /** After an unbundling that succeeds, every element's file exists and is the bundle's child. */
  lemma {:induction false} UnbundledAre(d: Disk, parent: Addr, es: seq<Element>, i: nat, overbundle: bool)
    requires OrdinaryAll(es) && i < |es| && WriteElements(d, parent, es, overbundle).ok
    ensures OwnedBy(WriteElements(d, parent, es, overbundle).disk, es[i].addr, Some(parent))
    decreases |es|
  {
    var w := WriteElement(d, parent, es[0], overbundle);
    WrittenIs(d, parent, es[0], overbundle);
    if i == 0 {
      StayChildren(w.disk, parent, es[1..], es[0].addr, overbundle);
    } else {
      UnbundledAre(w.disk, parent, es[1..], i - 1, overbundle);
    }
  }

  /** The last element written is there as it was given. */
  lemma LastIsWritten(d: Disk, parent: Addr, es: seq<Element>, overbundle: bool)
    requires es != [] && WriteElements(d, parent, es, overbundle).ok
    ensures var e := es[|es| - 1];
      var d' := WriteElements(d, parent, es, overbundle).disk; e.addr in d' && d'[e.addr] == e.contents
  {
    var n := |es| - 1;
    assert es == es[..n] + [es[n]];
    WriteElementsAppend(d, parent, es[..n], es[n], overbundle);
    WrittenIs(WriteElements(d, parent, es[..n], overbundle).disk, parent, es[n], overbundle);
  }

  /** Unpacking to free places and to the bundle's own children always succeeds. */
  lemma {:induction false} FreeOrOwn(d: Disk, parent: Addr, es: seq<Element>)
    requires OrdinaryAll(es)
    requires forall i :: 0 <= i < |es| ==> es[i].addr !in d || OwnedBy(d, es[i].addr, Some(parent))
    ensures WriteElements(d, parent, es, false).ok
    decreases |es|
  {
    if es != [] {
      var w := WriteElement(d, parent, es[0], false);
      WrittenIs(d, parent, es[0], false);
      forall i | 0 <= i < |es[1..]| ensures es[1..][i].addr !in w.disk || OwnedBy(w.disk, es[1..][i].addr, Some(parent)) {
        var a := es[i + 1].addr;
        if OwnedBy(d, a, Some(parent)) {
          StaysChild(d, parent, es[0], a, false);
        } else if a != es[0].addr {
          assert Ordinary(a) && RecordPath(es[0].addr)[0] == DIR;
        }
      }
      FreeOrOwn(w.disk, parent, es[1..]);
    }
  }

  /** So a bundle that was unpacked can be unpacked again, to the same files or fewer, with
      whatever contents. */
  lemma UnbundleAgain(d: Disk, parent: Addr, es: seq<Element>, again: seq<Element>)
    requires OrdinaryAll(es) && OrdinaryAll(again) && WriteElements(d, parent, es, false).ok
    requires forall j :: 0 <= j < |again| ==> exists i :: 0 <= i < |es| && es[i].addr == again[j].addr
    ensures WriteElements(WriteElements(d, parent, es, false).disk, parent, again, false).ok
  {
    var d' := WriteElements(d, parent, es, false).disk;
    forall j | 0 <= j < |again| ensures OwnedBy(d', again[j].addr, Some(parent)) {
      var i :| 0 <= i < |es| && es[i].addr == again[j].addr;
      UnbundledAre(d, parent, es, i, false);
    }
    FreeOrOwn(d', parent, again);
  }

  /** And another bundle cannot take any of its files. */
  lemma OthersAreRefused(d: Disk, parent: Addr, es: seq<Element>, other: Addr, e: Element, i: nat)
    requires OrdinaryAll(es) && WriteElements(d, parent, es, false).ok && i < |es| && e.addr == es[i].addr && other != parent
    ensures var d' := WriteElements(d, parent, es, false).disk;
      WriteElement(d', other, e, false) == Written(d', false)
  {
    UnbundledAre(d, parent, es, i, false);
  }
}
