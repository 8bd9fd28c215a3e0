/** The key by which an approval compares capabilities, and the subset check built on it. */
module Capabilities {
  import opened Records

  function TypeKey(c: Capability): string {
    match c
    case Read(resource, _) => "read:" + resource
    case Write(resource, _) => "write:" + resource
    case Delete(resource, _) => "delete:" + resource
    case Transact(resource, _, _) => "transact:" + resource
    case Custom(namespace, name, _) => "custom:" + namespace + ":" + name
  }

  ghost predicate HasKey(key: string, caps: seq<Capability>) {
    exists r :: r in caps && TypeKey(r) == key
  }

  /** Every capability has the type key of some capability of the original request. */
  ghost predicate Within(caps: seq<Capability>, original: seq<Capability>) {
    forall c :: c in caps ==> HasKey(TypeKey(c), original)
  }

  /** Same kind and same resource; for custom capabilities, the same text once joined by a colon. */
  predicate SameTarget(c: Capability, d: Capability) {
    match (c, d)
    case (Read(r, _), Read(q, _)) => r == q
    case (Write(r, _), Write(q, _)) => r == q
    case (Delete(r, _), Delete(q, _)) => r == q
    case (Transact(r, _, _), Transact(q, _, _)) => r == q
    case (Custom(n, m, _), Custom(p, q, _)) => n + ":" + m == p + ":" + q
    case _ => false
  }

  lemma CancelPrefix(p: string, a: string, b: string)
    requires p + a == p + b
    ensures a == b
  {
    assert a == (p + a)[|p|..];
    assert b == (p + b)[|p|..];
  }

  function Kind(c: Capability): string {
    match c
    case Read(_, _) => "read:"
    case Write(_, _) => "write:"
    case Delete(_, _) => "delete:"
    case Transact(_, _, _) => "transact:"
    case Custom(_, _, _) => "custom:"
  }

  function Target(c: Capability): string {
    if c.Custom? then c.namespace + ":" + c.name else c.resource
  }

  lemma KeySplits(c: Capability)
    ensures TypeKey(c) == Kind(c) + Target(c)
  {
    if c.Custom? {
      assert "custom:" + c.namespace + ":" + c.name == "custom:" + (c.namespace + ":" + c.name);
    }
  }

  lemma KindsDiffer(c: Capability, d: Capability)
    ensures Kind(c)[0] == Kind(d)[0] ==> Kind(c) == Kind(d)
    ensures SameTarget(c, d) <==> Kind(c) == Kind(d) && Target(c) == Target(d)
  {
    assert Kind(c)[0] == if c.Read? then 'r' else if c.Write? then 'w' else if c.Delete? then 'd'
      else if c.Transact? then 't' else 'c';
    assert Kind(d)[0] == if d.Read? then 'r' else if d.Write? then 'w' else if d.Delete? then 'd'
      else if d.Transact? then 't' else 'c';
  }

  /** A key identifies the kind and the resource and forgets filters, conditions and amounts. */
  lemma TypeKeyIdentifiesTarget(c: Capability, d: Capability)
    ensures TypeKey(c) == TypeKey(d) <==> SameTarget(c, d)
  {
    KeySplits(c);
    KeySplits(d);
    KindsDiffer(c, d);
    if TypeKey(c) == TypeKey(d) {
      assert Kind(c)[0] == TypeKey(c)[0] && Kind(d)[0] == TypeKey(d)[0];
      CancelPrefix(Kind(c), Target(c), Target(d));
    }
  }

  lemma WithinMeans(caps: seq<Capability>, original: seq<Capability>)
    ensures Within(caps, original) <==>
      forall c :: c in caps ==> exists q :: q in original && TypeKey(q) == TypeKey(c) && SameTarget(q, c)
  {
    forall c, q | TypeKey(q) == TypeKey(c)
      ensures SameTarget(q, c)
    {
      TypeKeyIdentifiesTarget(q, c);
    }
  }

  /** Two ways to read one joined text differ only if a namespace holds a colon. */
  lemma JoinedNamesDiffer(n: string, m: string, p: string, q: string)
    requires n + ":" + m == p + ":" + q
    ensures (n == p && m == q) || ':' in n || (':' in p && ':' in m)
  {
    var s := n + ":" + m;
    if |n| < |p| {
      assert s[|n|] == ':' && p[|n|] == s[|n|];
      var k := |p| - |n| - 1;
      assert (p + ":" + q)[|p|] == ':' && m[k] == s[|p|];
    } else if |p| < |n| {
      assert (p + ":" + q)[|p|] == ':' && n[|p|] == s[|p|];
    } else {
      assert n == s[..|n|] && p == (p + ":" + q)[..|n|];
      assert m == s[|n| + 1..] && q == (p + ":" + q)[|n| + 1..];
    }
  }

  /** Whatever has the key of `c` has its namespace and its name. */
  ghost predicate KeyNames(c: Capability)
    requires c.Custom?
  {
    forall d: Capability :: TypeKey(d) == TypeKey(c) ==> d.Custom? && d.namespace == c.namespace && d.name == c.name
  }

  lemma ColonInNamespace(c: Capability, i: nat)
    requires c.Custom? && i < |c.namespace| && c.namespace[i] == ':'
    ensures !KeyNames(c)
  {
    var d := Custom(c.namespace[..i], c.namespace[i + 1..] + ":" + c.name, map[]);
    assert c.namespace == c.namespace[..i] + ":" + c.namespace[i + 1..];
    assert c.namespace + ":" + c.name == d.namespace + ":" + d.name;
    TypeKeyIdentifiesTarget(c, d);
    assert |d.namespace| != |c.namespace|;
  }

  lemma ColonInName(c: Capability, i: nat)
    requires c.Custom? && i < |c.name| && c.name[i] == ':'
    ensures !KeyNames(c)
  {
    var d := Custom(c.namespace + ":" + c.name[..i], c.name[i + 1..], map[]);
    assert c.name == c.name[..i] + ":" + c.name[i + 1..];
    assert c.namespace + ":" + c.name == d.namespace + ":" + d.name;
    TypeKeyIdentifiesTarget(c, d);
    assert |d.namespace| != |c.namespace|;
  }

  /** The key of a custom capability names it, so that approving it approves no other, exactly when
      neither its namespace nor its name holds a colon. */
  lemma KeyNamesIffNoColon(c: Capability)
    requires c.Custom?
    ensures KeyNames(c) <==> ':' !in c.namespace && ':' !in c.name
  {
    if ':' in c.namespace {
      var i: nat :| i < |c.namespace| && c.namespace[i] == ':';
      ColonInNamespace(c, i);
    } else if ':' in c.name {
      var i: nat :| i < |c.name| && c.name[i] == ':';
      ColonInName(c, i);
    } else {
      forall d: Capability | TypeKey(d) == TypeKey(c)
        ensures d.Custom? && d.namespace == c.namespace && d.name == c.name
      {
        TypeKeyIdentifiesTarget(d, c);
        JoinedNamesDiffer(c.namespace, c.name, d.namespace, d.name);
      }
    }
  }
}
