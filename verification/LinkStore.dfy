/** The output files of one prefix: every address holds a map, a pointer to another
    address, or nothing.  This module is the theory of such stores: when chasing
    pointers stops, that the readers agree, and what one write changes. */
module LinkStore {
  import opened Collections
  import opened Wrappers

  /** An address below the prefix, as its normal path components. */
  type Addr = seq<string>
  type Outputs = map<string, string>
  /** What executing an operation asks for: `Some` sets a key, `None` removes it. */
  type Changes = map<string, Option<string>>

  datatype OutputFile = PointerToVirtual(target: Addr) | OutputMap(entries: Outputs)
  type Files = map<Addr, OutputFile>

  predicate IsLink(f: Files, a: Addr) {
    a in f && f[a].PointerToVirtual?
  }

  // ---------------------------------------------------------------- chains

  /** Following pointers from `a` takes exactly `n` steps and then stops. */
  ghost predicate Ends(f: Files, a: Addr, n: nat)
    decreases n
  {
    if IsLink(f, a) then n > 0 && Ends(f, f[a].target, n - 1) else n == 0
  }

  ghost predicate Halts(f: Files, a: Addr) {
    exists n: nat :: Ends(f, a, n)
  }

  /** Every chain of pointers ends: the readers and `write_recurse` terminate everywhere. */
  ghost predicate Acyclic(f: Files) {
    forall a: Addr :: Halts(f, a)
  }

  lemma {:induction false} EndsUnique(f: Files, a: Addr, m: nat, n: nat)
    requires Ends(f, a, m) && Ends(f, a, n)
    ensures m == n
    decreases m
  {
    if IsLink(f, a) {
      EndsUnique(f, f[a].target, m - 1, n - 1);
    }
  }

  /** The number of pointers on the chain from `a`: the termination measure of every reader. */
  ghost function Links(f: Files, a: Addr): (n: nat)
    requires Halts(f, a)
    ensures Ends(f, a, n)
  {
    var n: nat :| Ends(f, a, n); n
  }

  lemma LinksNext(f: Files, a: Addr)
    requires Halts(f, a) && IsLink(f, a)
    ensures Halts(f, f[a].target) && Links(f, f[a].target) == Links(f, a) - 1
  {
    var n := Links(f, a) - 1;
    assert Ends(f, f[a].target, n);
    EndsUnique(f, f[a].target, Links(f, f[a].target), n);
  }

  /** The address at which the chain from `a` stops. */
  ghost function Terminal(f: Files, a: Addr): (t: Addr)
    requires Halts(f, a)
    ensures !IsLink(f, t)
    decreases Links(f, a)
  {
    if IsLink(f, a) then LinksNext(f, a); Terminal(f, f[a].target) else a
  }

  /** All addresses on the chain from `a`, including the one where it stops. */
  ghost function Chain(f: Files, a: Addr): (c: set<Addr>)
    requires Halts(f, a)
    ensures a in c
    decreases Links(f, a)
  {
    if IsLink(f, a) then LinksNext(f, a); {a} + Chain(f, f[a].target) else {a}
  }

  /** A guard that gives up after as many hops as there are files never cuts off a
      chain that ends: each pointer on it is a different file. */
  lemma LinksAtMostFiles(f: Files, a: Addr)
    requires Halts(f, a)
    ensures Links(f, a) <= |f|
  {
    var seen := LinkFiles(f, a);
    CardinalityMonotone(seen, f.Keys);
  }

  lemma {:induction false} LinkFiles(f: Files, a: Addr) returns (seen: set<Addr>)
    requires Halts(f, a)
    ensures |seen| == Links(f, a) && seen <= f.Keys
    ensures forall b :: b in seen ==> Halts(f, b) && Links(f, b) <= Links(f, a)
    decreases Links(f, a)
  {
    if IsLink(f, a) {
      LinksNext(f, a);
      var rest := LinkFiles(f, f[a].target);
      assert a !in rest;
      seen := {a} + rest;
    } else {
      seen := {};
    }
  }

  // --------------------------------------------------------------- readers

  function ReadRecurse(f: Files, a: Addr): (r: Option<OutputFile>)
    requires Halts(f, a)
    ensures r.Some? ==> r.value.OutputMap?
    decreases Links(f, a)
  {
    if a !in f then None
    else match f[a]
      case PointerToVirtual(virt) => LinksNext(f, a); ReadRecurse(f, virt)
      case OutputMap(_) => Some(f[a])
  }

  function Resolve(f: Files, a: Addr): (r: Option<Addr>)
    requires Halts(f, a)
    decreases Links(f, a)
  {
    if a !in f then None
    else match f[a]
      case PointerToVirtual(virt) => LinksNext(f, a); Resolve(f, virt)
      case OutputMap(_) => Some(a)
  }

  function Get(f: Files, a: Addr, key: string): (r: Option<string>)
    requires Halts(f, a)
    decreases Links(f, a)
  {
    if a !in f then None
    else match f[a]
      case PointerToVirtual(virt) => LinksNext(f, a); Get(f, virt, key)
      case OutputMap(entries) => Lookup(entries, key)
  }

  function Lookup(m: Outputs, key: string): Option<string> {
    if key in m then Some(m[key]) else None
  }

  /** The outputs an address offers, whichever file they live in. */
  function Contents(f: Files, a: Addr): Outputs
    requires Halts(f, a)
  {
    match ReadRecurse(f, a)
    case Some(OutputMap(entries)) => entries
    case None => map[]
  }

  /** The three readers see one and the same file: the one at the end of the chain. */
  lemma {:induction false} ReadersAgree(f: Files, a: Addr, key: string)
    requires Halts(f, a)
    ensures Resolve(f, a) == if Terminal(f, a) in f then Some(Terminal(f, a)) else None
    ensures ReadRecurse(f, a) == if Resolve(f, a).Some? then Some(f[Terminal(f, a)]) else None
    ensures Get(f, a, key) == Lookup(Contents(f, a), key)
    decreases Links(f, a)
  {
    if IsLink(f, a) {
      LinksNext(f, a);
      ReadersAgree(f, f[a].target, key);
    }
  }

  /** Equal terminal addresses mean equal contents. */
  lemma ContentsAtTerminal(f: Files, a: Addr)
    requires Halts(f, a)
    ensures Contents(f, a) == if Terminal(f, a) in f then f[Terminal(f, a)].entries else map[]
  {
    ReadersAgree(f, a, "");
  }

  // ---------------------------------------------------------------- writes

  /** The store after anything but a pointer was put at `v` (a map, or nothing at all). */
  ghost predicate CutAt(f: Files, f': Files, v: Addr) {
    && !IsLink(f', v)
    && forall a: Addr :: a != v ==> (a in f <==> a in f') && (a in f ==> f[a] == f'[a])
  }

  /** Writing a map to, or deleting, any file keeps every chain finite; only chains that
      ran through it change, and they now stop there. */
  lemma {:induction false} CutKeepsChains(f: Files, f': Files, v: Addr, b: Addr)
    requires Halts(f, b) && CutAt(f, f', v)
    ensures Halts(f', b) && Links(f', b) <= Links(f, b)
    ensures Terminal(f', b) == if v in Chain(f, b) then v else Terminal(f, b)
    ensures v !in Chain(f, b) ==> Contents(f', b) == Contents(f, b)
    decreases Links(f, b)
  {
    if b != v && IsLink(f, b) {
      LinksNext(f, b);
      CutKeepsChains(f, f', v, f[b].target);
      assert Ends(f', b, Links(f', f'[b].target) + 1);
      LinksNext(f', b);
      EndsUnique(f', b, Links(f', b), Links(f', f'[b].target) + 1);
    } else {
      assert Ends(f', b, 0);
      EndsUnique(f', b, Links(f', b), 0);
    }
  }

  lemma CutKeepsAcyclic(f: Files, f': Files, v: Addr)
    requires Acyclic(f) && CutAt(f, f', v)
    ensures Acyclic(f')
  {
    forall b: Addr ensures Halts(f', b) {
      CutKeepsChains(f, f', v, b);
    }
  }

  /** A chain that avoids `p` is not affected by what is stored at `p`. */
  lemma {:induction false} ChainAvoiding(f: Files, f': Files, p: Addr, b: Addr)
    requires Halts(f, b) && p !in Chain(f, b)
    requires forall a: Addr :: a != p ==> (a in f <==> a in f') && (a in f ==> f[a] == f'[a])
    ensures Halts(f', b) && Terminal(f', b) == Terminal(f, b) && Contents(f', b) == Contents(f, b)
    ensures Chain(f', b) == Chain(f, b)
    decreases Links(f, b)
  {
    if IsLink(f, b) {
      LinksNext(f, b);
      ChainAvoiding(f, f', p, f[b].target);
      assert Ends(f', b, Links(f', f[b].target) + 1);
      LinksNext(f', b);
    } else {
      assert Ends(f', b, 0);
    }
  }

  /** A new link changes exactly the chains through `p`: they continue to where `v` leads. */
  lemma {:induction false} LinkRedirects(f: Files, p: Addr, v: Addr, b: Addr)
    requires Halts(f, v) && p !in Chain(f, v) && Halts(f, b)
    ensures var f' := f[p := PointerToVirtual(v)];
      && Halts(f', b)
      && Terminal(f', b) == (if p in Chain(f, b) then Terminal(f, v) else Terminal(f, b))
      && Contents(f', b) == (if p in Chain(f, b) then Contents(f, v) else Contents(f, b))
    decreases Links(f, b)
  {
    var f' := f[p := PointerToVirtual(v)];
    if b == p {
      ChainAvoiding(f, f', p, v);
      assert Ends(f', b, Links(f', v) + 1);
    } else if IsLink(f, b) {
      LinksNext(f, b);
      LinkRedirects(f, p, v, f[b].target);
      assert Ends(f', b, Links(f', f[b].target) + 1);
    } else {
      assert Ends(f', b, 0);
    }
  }

  /** `p` lies on the finite chain of `v`, so with `p` pointing to `v` the chain of `p`
      would have to be longer than itself. */
  lemma {:induction false} LinkBackLoops(f: Files, p: Addr, v: Addr, b: Addr, n: nat, m: nat)
    requires Halts(f, b) && p in Chain(f, b)
    requires var f' := f[p := PointerToVirtual(v)]; Ends(f', b, m) && Ends(f', p, n)
    ensures n <= m
    decreases Links(f, b)
  {
    var f' := f[p := PointerToVirtual(v)];
    if b == p {
      EndsUnique(f', p, m, n);
    } else {
      LinksNext(f, b);
      LinkBackLoops(f, p, v, f[b].target, n, m - 1);
    }
  }

  /** Exactly when writing a link keeps the store free of cycles. */
  lemma LinkKeepsAcyclicIff(f: Files, p: Addr, v: Addr)
    requires Acyclic(f)
    ensures Acyclic(f[p := PointerToVirtual(v)]) <==> p !in Chain(f, v)
  {
    var f' := f[p := PointerToVirtual(v)];
    if p !in Chain(f, v) {
      forall b: Addr ensures Halts(f', b) {
        LinkRedirects(f, p, v, b);
      }
    } else if Halts(f', p) {
      var n := Links(f', p);
      LinkBackLoops(f, p, v, v, n, n - 1);
    }
  }
}
