/** Accepted prefixes and prefix spellings, told from the text alone. */
module PrefixSpelling {
  import opened Collections
  import opened Text
  import opened Paths

  // ----------------------------------------------------------- what is accepted

  lemma {:induction false} NormalIff(ps: seq<string>)
    ensures (forall c :: c in Normalized(ps) ==> c.Normal?) <==> ".." !in ps
    ensures RootDir !in Normalized(ps) && CurDir !in Normalized(ps)
  {
    if ps != [] {
      NormalIff(ps[1..]);
      assert ps == [ps[0]] + ps[1..];
      InFront(ps[0], ps[1..], "..");
      EachNormal(OfPart(ps[0]), Normalized(ps[1..]));
      PartNormalIff(ps[0]);
    }
  }

  lemma PartNormalIff(p: string)
    ensures (forall c :: c in OfPart(p) ==> c.Normal?) <==> p != ".."
    ensures RootDir !in OfPart(p) && CurDir !in OfPart(p)
  {
    assert p == ".." ==> OfPart(p) == [ParentDir] && ParentDir in OfPart(p);
  }

  lemma InFront(p: string, ps: seq<string>, q: string)
    ensures q in [p] + ps <==> q == p || q in ps
  {}

  lemma EachNormal(a: Path, b: Path)
    ensures (forall c :: c in a + b ==> c.Normal?) <==> (forall c :: c in a ==> c.Normal?) && (forall c :: c in b ==> c.Normal?)
  {
    assert forall c :: c in a ==> c in a + b;
    assert forall c :: c in b ==> c in a + b;
  }

  lemma ComponentsAre(s: string)
    ensures Components(s) ==
            if "/" <= s then [RootDir] + Normalized(Parts(s))
            else if Parts(s)[0] == "." then [CurDir] + Normalized(Parts(s)[1..])
            else Normalized(Parts(s))
  {}

  predicate AllNames(cs: Path) {
    forall c :: c in cs ==> c.Normal?
  }

  lemma OddFront(c: Component, cs: Path)
    requires !c.Normal?
    ensures !AllNames([c] + cs)
  {
    assert c in [c] + cs;
  }

  lemma NamesOnlyIff(key: string)
    ensures AllNames(Components(key)) <==> !("/" <= key) && Parts(key)[0] != "." && ".." !in Parts(key)
  {
    ComponentsAre(key);
    NormalIff(Parts(key));
    OddFront(RootDir, Normalized(Parts(key)));
    OddFront(CurDir, Normalized(Parts(key)[1..]));
  }

  /** A prefix on its own is accepted if and only if it has no space around it and, unless it
      is the only one and `/`, neither starts at the root nor with a dot, nor goes up anywhere. */
  lemma AcceptedAloneIff(key: string, count: nat)
    ensures AcceptedAlone(key, count) <==>
              && Trim(key) == key
              && if key == "/" then count == 1
                 else !("/" <= key) && Parts(key)[0] != "." && ".." !in Parts(key)
  {
    NamesOnlyIff(key);
  }

  // --------------------------------------------------------------- components

  /** Empty parts and dots within a path do not count. */
  lemma IdleParts(a: seq<string>, b: seq<string>)
    ensures Normalized(a + [""] + b) == Normalized(a + b)
    ensures Normalized(a + ["."] + b) == Normalized(a + b)
  {
    NormalizedAppend(a, b);
    NormalizedAppend(a, [""]);
    NormalizedAppend(a, ["."]);
    NormalizedAppend(a + [""], b);
    NormalizedAppend(a + ["."], b);
    assert [""][1..] == [] && ["."][1..] == [];
    assert Normalized([""]) == [] && Normalized(["."]) == [];
    assert Normalized(a) + [] == Normalized(a);
  }

  // ---------------------------------------------------------------- spellings

  /** Neither slash nor dot at the start, and no slash at the end. */
  predicate Bare(x: string) {
    x != "" && !("/" <= x) && !("./" <= x) && x[|x| - 1] != '/'
  }

  function WithoutFront(a: string): string {
    var b := if "/" <= a then a[1..] else a;
    if "./" <= b then b[2..] else b
  }

  /** A slash at the end makes no difference. */
  lemma EndSlash(y: string)
    requires y != "" && y[|y| - 1] != '/'
    ensures NormPrefix(y) == WithoutFront(y) && NormPrefix(y + "/") == WithoutFront(y)
  {
    assert (y + "/")[|y|] == '/' && (y + "/")[..|y|] == y;
  }

  lemma FrontOf(x: string)
    requires Bare(x)
    ensures WithoutFront(x) == x && WithoutFront("/" + x) == x && WithoutFront("./" + x) == x
  {
    assert ("/" + x)[1..] == x;
    assert ("./" + x)[0] == '.' && ("./" + x)[2..] == x;
  }

  lemma LastOf(head: string, x: string)
    requires x != ""
    ensures head + x != "" && (head + x)[|head + x| - 1] == x[|x| - 1]
  {}

  /** `x`, `x/`, `/x`, `/x/`, `./x` and `./x/` are one prefix. */
  lemma SpellingsAgree(x: string)
    requires Bare(x)
    ensures NormPrefix(x) == x && NormPrefix(x + "/") == x
    ensures NormPrefix("/" + x) == x && NormPrefix("/" + x + "/") == x
    ensures NormPrefix("./" + x) == x && NormPrefix("./" + x + "/") == x
  {
    FrontOf(x);
    LastOf("/", x);
    LastOf("./", x);
    EndSlash(x);
    EndSlash("/" + x);
    EndSlash("./" + x);
  }
}
