/**
 The walk up from a host: the host itself, then the domains above it, down to its registrable
 domain, which the Public Suffix List decides and is a parameter here.
 */
module NearestDomain {
  import opened Prelude

  /** A label of `host` begins at `at`. */
  ghost predicate LabelAt(host: string, at: nat) {
    at <= |host| && (at == 0 || host[at - 1] == '.')
  }

  /** `host` itself, or what follows one of its dots. */
  ghost predicate LabelSuffix(a: string, host: string) {
    |a| <= |host| && a == host[|host| - |a|..] && LabelAt(host, |host| - |a|)
  }

  function FirstDot(name: string): (at: nat)
    ensures at <= |name|
    ensures forall i | 0 <= i < at :: name[i] != '.'
    ensures at < |name| ==> name[at] == '.'
  {
    if name == [] || name[0] == '.' then 0 else 1 + FirstDot(name[1..])
  }

  /** `split_once('.')`: what follows the first dot. */
  function Parent(name: string): Option<string> {
    if FirstDot(name) < |name| then Some(name[FirstDot(name) + 1..]) else None
  }

  /** The host, and above it what the base domain allows: nothing when the host has none above it. */
  ghost predicate Asked(a: string, host: string, base: Option<string>) {
    LabelSuffix(a, host) && (a == host || (base.Some? && |a| >= |base.value|))
  }

  /** `at` is the longest name that is asked and known, if there is one. */
  ghost predicate Nearest(domains: map<string, nat>, host: string, base: Option<string>, at: Option<string>) {
    if at.Some? then
      && Asked(at.value, host, base) && at.value in domains
      && forall a | Asked(a, host, base) && a in domains :: |a| <= |at.value|
    else
      forall a | Asked(a, host, base) :: a !in domains
  }

  /** A suffix at least as long as the base domain is one at or below it. */
  lemma NotAboveTheBase(a: string, host: string, base: string)
    requires LabelSuffix(a, host) && LabelSuffix(base, host)
    ensures |a| >= |base| <==> LabelSuffix(base, a)
  {
  }

  /** Asking the same number of characters is asking for the same name: the nearest is one name. */
  lemma NearestIsUnique(domains: map<string, nat>, host: string, base: Option<string>, a: Option<string>, b: Option<string>)
    requires Nearest(domains, host, base, a) && Nearest(domains, host, base, b)
    ensures a == b
  {
  }

  /** No label begins between a name and its parent. */
  lemma NothingBetween(name: string, a: string, host: string)
    requires LabelSuffix(name, host) && LabelSuffix(a, host) && |a| < |name|
    ensures Parent(name).Some? && |a| <= |Parent(name).value| && LabelSuffix(Parent(name).value, host)
  {
    var dot := FirstDot(name);
    var from, at := |host| - |name|, |host| - |a|;
    assert host[at - 1] == name[at - 1 - from] == '.';
    assert host[from + dot] == name[dot];
  }

  /** The icon of the nearest known name, if there is one. */
  ghost predicate NearestIcon(domains: map<string, nat>, host: string, base: Option<string>, icon: Option<nat>) {
    exists at :: Nearest(domains, host, base, at) && icon == if at.Some? then Some(domains[at.value]) else None
  }

  /** What is asked and known, and no longer than a name that is not known, is no longer than its parent. */
  lemma BelowParent(domains: map<string, nat>, host: string, base: Option<string>, name: string, a: string)
    requires Asked(name, host, base) && name !in domains
    requires Asked(a, host, base) && a in domains && |a| <= |name|
    ensures Parent(name).Some? && base.Some? && |a| <= |Parent(name).value| && |Parent(name).value| >= |base.value|
  {
    assert |a| == |name| ==> a == name;
    NothingBetween(name, a, host);
  }

  method Walk(domains: map<string, nat>, host: string, base: Option<string>) returns (icon: Option<nat>)
    ensures NearestIcon(domains, host, base, icon)
  {
    var name := host;
    while true
      invariant Asked(name, host, base)
      invariant forall a | Asked(a, host, base) && a in domains :: |a| <= |name|
      decreases |name|
    {
      if name in domains {
        assert Nearest(domains, host, base, Some(name));
        return Some(domains[name]);
      }
      var parent := Parent(name);
      forall a | Asked(a, host, base) && a in domains
        ensures parent.Some? && base.Some? && |a| <= |parent.value| && |parent.value| >= |base.value|
      {
        BelowParent(domains, host, base, name, a);
      }
      if base.Some? && parent.Some? && |parent.value| >= |base.value| {
        ParentIsSuffix(name, host);
        name := parent.value;
      } else {
        assert Nearest(domains, host, base, None);
        return None;
      }
    }
  }

  lemma ParentIsSuffix(name: string, host: string)
    requires LabelSuffix(name, host) && Parent(name).Some?
    ensures LabelSuffix(Parent(name).value, host) && |Parent(name).value| < |name|
  {
    assert host[|host| - |name| + FirstDot(name)] == name[FirstDot(name)];
  }
}
