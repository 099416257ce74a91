/** Merging of port forwards (`src/config.rs`, `src/devcontainer.rs`). */
module Forwards {
  import opened Wrappers

  /** Ports are non-zero sixteen-bit numbers; nothing here computes with them. */
  datatype PortForward = PortForward(guest: nat, host: nat, name: Option<string>)

  // ---------------------------------------------------------------- what a merge is

  /** The guest ports of a list, each once, in the order of their first entries. */
  function GuestPorts(list: seq<PortForward>): seq<nat> {
    if list == [] then []
    else
      var earlier := GuestPorts(list[..|list| - 1]);
      var port := list[|list| - 1].guest;
      if port in earlier then earlier else earlier + [port]
  }

  /** The last entry for a guest port. */
  function Lookup(list: seq<PortForward>, guest: nat): Option<PortForward> {
    if list == [] then None
    else if list[|list| - 1].guest == guest then Some(list[|list| - 1])
    else Lookup(list[..|list| - 1], guest)
  }

  /** One entry per guest port, in first-seen order, with the last value. */
  ghost predicate IsMergeOf(list: seq<PortForward>, merged: seq<PortForward>) {
    && |merged| == |GuestPorts(list)|
    && forall i | 0 <= i < |merged| ::
         merged[i].guest == GuestPorts(list)[i] && Lookup(list, merged[i].guest) == Some(merged[i])
  }

  lemma {:induction false} PortsAreDistinct(list: seq<PortForward>)
    ensures forall i, j | 0 <= i < j < |GuestPorts(list)| :: GuestPorts(list)[i] != GuestPorts(list)[j]
  {
    if list != [] { PortsAreDistinct(list[..|list| - 1]); }
  }

  lemma {:induction false} LookupFinds(list: seq<PortForward>, guest: nat)
    ensures guest in GuestPorts(list) <==> Lookup(list, guest).Some?
    ensures Lookup(list, guest).Some? ==> Lookup(list, guest).value.guest == guest
  {
    if list != [] { LookupFinds(list[..|list| - 1], guest); }
  }

  /** The specification leaves no choice. */
  lemma MergeIsUnique(list: seq<PortForward>, a: seq<PortForward>, b: seq<PortForward>)
    requires IsMergeOf(list, a) && IsMergeOf(list, b)
    ensures a == b
  {
    assert forall i | 0 <= i < |a| :: a[i].guest == b[i].guest;
  }

  // ---------------------------------------------------------------- the loop

  /** `merge_forward_ports`, which replaces an existing entry in place. */
  method MergeForwardPorts(config: seq<PortForward>, cli: seq<PortForward>)
    returns (out: seq<PortForward>)
    ensures IsMergeOf(config + cli, out)
  {
    var chain := config + cli;
    out := [];
    for i := 0 to |chain|
      invariant IsMergeOf(chain[..i], out)
    {
      var f := chain[i];
      assert chain[..i + 1] == chain[..i] + [f];
      var k := Position(out, f.guest);
      MergeOneMore(chain[..i], out, f, k);
      if k < |out| {
        out := out[k := f];
      } else {
        out := out + [f];
      }
    }
    assert chain[..|chain|] == chain;
  }

  /** `iter_mut().find`: the first entry with the port, or the length of the list. */
  method Position(out: seq<PortForward>, guest: nat) returns (k: nat)
    ensures k <= |out| && forall i | 0 <= i < k :: out[i].guest != guest
    ensures k < |out| ==> out[k].guest == guest
  {
    k := 0;
    while k < |out| && out[k].guest != guest
      invariant k <= |out| && forall i | 0 <= i < k :: out[i].guest != guest
    {
      k := k + 1;
    }
  }

  lemma Snoc(list: seq<PortForward>, f: PortForward)
    ensures GuestPorts(list + [f]) ==
      if f.guest in GuestPorts(list) then GuestPorts(list) else GuestPorts(list) + [f.guest]
    ensures forall g :: Lookup(list + [f], g) == if g == f.guest then Some(f) else Lookup(list, g)
  {
    assert (list + [f])[..|list + [f]| - 1] == list;
  }

  lemma MergeOneMore(list: seq<PortForward>, out: seq<PortForward>, f: PortForward, k: nat)
    requires IsMergeOf(list, out)
    requires k <= |out| && forall i | 0 <= i < k :: out[i].guest != f.guest
    requires k < |out| ==> out[k].guest == f.guest
    ensures IsMergeOf(list + [f], if k < |out| then out[k := f] else out + [f])
  {
    hide GuestPorts, Lookup;
    Snoc(list, f);
    PortsAreDistinct(list);
    var ports := GuestPorts(list);
    if k < |out| {
      assert ports[k] == f.guest;
      assert forall i | 0 <= i < |out| && i != k :: out[i].guest != f.guest;
    } else {
      assert forall i | 0 <= i < |ports| :: ports[i] == out[i].guest;
    }
  }

  // ---------------------------------------------------------------- merging again

  /** A merge has the guest ports and the lookups of the list it merges. */
  lemma MergeKeepsLookups(list: seq<PortForward>, merged: seq<PortForward>)
    requires IsMergeOf(list, merged)
    ensures GuestPorts(merged) == GuestPorts(list)
    ensures forall g :: Lookup(merged, g) == Lookup(list, g)
  {
    PortsAreDistinct(list);
    GuestPortsOfDistinct(merged, GuestPorts(list));
    forall g ensures Lookup(merged, g) == Lookup(list, g) {
      LookupFinds(list, g);
      LookupFinds(merged, g);
      if Lookup(merged, g).Some? {
        LookupIsAnEntry(merged, g);
      }
    }
  }

  lemma {:induction false} GuestPortsOfDistinct(list: seq<PortForward>, ports: seq<nat>)
    requires |list| == |ports| && forall i | 0 <= i < |list| :: list[i].guest == ports[i]
    requires forall i, j | 0 <= i < j < |ports| :: ports[i] != ports[j]
    ensures GuestPorts(list) == ports
  {
    if list != [] {
      var n := |list| - 1;
      GuestPortsOfDistinct(list[..n], ports[..n]);
      assert ports == ports[..n] + [ports[n]];
      assert ports[n] !in ports[..n];
    }
  }

  lemma {:induction false} LookupIsAnEntry(list: seq<PortForward>, guest: nat)
    requires Lookup(list, guest).Some?
    ensures Lookup(list, guest).value in list && Lookup(list, guest).value.guest == guest
  {
    if list[|list| - 1].guest != guest { LookupIsAnEntry(list[..|list| - 1], guest); }
  }

  lemma {:induction false} GuestPortsOfConcat(a: seq<PortForward>, b: seq<PortForward>, c: seq<PortForward>)
    requires GuestPorts(a) == GuestPorts(b)
    ensures GuestPorts(a + c) == GuestPorts(b + c)
  {
    if c == [] {
      assert a + c == a && b + c == b;
    } else {
      var n := |c| - 1;
      GuestPortsOfConcat(a, b, c[..n]);
      assert a + c == (a + c[..n]) + [c[n]] && b + c == (b + c[..n]) + [c[n]];
      Snoc(a + c[..n], c[n]);
      Snoc(b + c[..n], c[n]);
    }
  }

  lemma {:induction false} LookupOfConcat(a: seq<PortForward>, c: seq<PortForward>, g: nat)
    ensures Lookup(a + c, g) == if Lookup(c, g).Some? then Lookup(c, g) else Lookup(a, g)
  {
    if c == [] {
      assert a + c == a;
    } else {
      var n := |c| - 1;
      LookupOfConcat(a, c[..n], g);
      assert a + c == (a + c[..n]) + [c[n]];
      Snoc(a + c[..n], c[n]);
    }
  }

  /** Merging in two steps is merging everything at once. */
  lemma MergeTwice(a: seq<PortForward>, b: seq<PortForward>, c: seq<PortForward>,
      ab: seq<PortForward>, out: seq<PortForward>)
    requires IsMergeOf(a + b, ab) && IsMergeOf(ab + c, out)
    ensures IsMergeOf(a + (b + c), out)
  {
    assert a + (b + c) == (a + b) + c;
    MergeKeepsLookups(a + b, ab);
    GuestPortsOfConcat(ab, a + b, c);
    forall g ensures Lookup(ab + c, g) == Lookup((a + b) + c, g) {
      LookupOfConcat(ab, c, g);
      LookupOfConcat(a + b, c, g);
    }
  }

  /** The ports not already taken, in order. */
  function Without(ports: seq<nat>, taken: seq<nat>): seq<nat> {
    if ports == [] then []
    else
      var port := ports[|ports| - 1];
      Without(ports[..|ports| - 1], taken) + (if port in taken then [] else [port])
  }

  lemma {:induction false} WithoutMembers(ports: seq<nat>, taken: seq<nat>, g: nat)
    ensures g in Without(ports, taken) <==> g in ports && g !in taken
  {
    if ports != [] {
      var n := |ports| - 1;
      WithoutMembers(ports[..n], taken, g);
      assert ports == ports[..n] + [ports[n]];
    }
  }

  lemma WithoutOneMore(ports: seq<nat>, taken: seq<nat>, g: nat)
    ensures Without(ports + [g], taken) == Without(ports, taken) + (if g in taken then [] else [g])
  {
    assert (ports + [g])[..|ports|] == ports;
  }

  lemma Reassociate(a: seq<nat>, b: seq<nat>, c: seq<nat>)
    ensures a + (b + c) == (a + b) + c
  {
  }

  lemma {:induction false} GuestPortsAppended(a: seq<PortForward>, b: seq<PortForward>)
    ensures GuestPorts(a + b) == GuestPorts(a) + Without(GuestPorts(b), GuestPorts(a))
  {
    if b == [] {
      assert a + b == a;
      assert Without(GuestPorts(b), GuestPorts(a)) == [];
    } else {
      var n := |b| - 1;
      var f := b[n];
      GuestPortsAppended(a, b[..n]);
      assert a + b == (a + b[..n]) + [f] && b == b[..n] + [f];
      hide GuestPorts, Without, Lookup;
      var earlier, taken := GuestPorts(b[..n]), GuestPorts(a);
      Snoc(a + b[..n], f);
      Snoc(b[..n], f);
      WithoutMembers(earlier, taken, f.guest);
      WithoutOneMore(earlier, taken, f.guest);
      Reassociate(taken, Without(earlier, taken), if f.guest in taken then [] else [f.guest]);
    }
  }

  /** The same on the other side: the second step may be merged first. */
  lemma MergeTwiceRight(a: seq<PortForward>, b: seq<PortForward>, c: seq<PortForward>,
      bc: seq<PortForward>, out: seq<PortForward>)
    requires IsMergeOf(b + c, bc) && IsMergeOf(a + bc, out)
    ensures IsMergeOf(a + (b + c), out)
  {
    hide GuestPorts, Lookup, Without;
    MergeKeepsLookups(b + c, bc);
    GuestPortsAppended(a, bc);
    GuestPortsAppended(a, b + c);
    forall g ensures Lookup(a + bc, g) == Lookup(a + (b + c), g) {
      LookupOfConcat(a, bc, g);
      LookupOfConcat(a, b + c, g);
    }
  }

  // ---------------------------------------------------------------- devcontainer forwards

  function Guests(list: seq<PortForward>): set<nat> {
    set f | f in list :: f.guest
  }

  /** The forwards whose guest port no CLI forward names. */
  function NotNamed(list: seq<PortForward>, cli: set<nat>): seq<PortForward> {
    if list == [] then []
    else
      var f := list[|list| - 1];
      NotNamed(list[..|list| - 1], cli) + (if f.guest in cli then [] else [f])
  }

  lemma {:induction false} LookupOfNotNamed(list: seq<PortForward>, cli: set<nat>, g: nat)
    ensures Lookup(NotNamed(list, cli), g) == if g in cli then None else Lookup(list, g)
  {
    if list != [] {
      var n := |list| - 1;
      LookupOfNotNamed(list[..n], cli, g);
      if list[n].guest in cli {
        assert NotNamed(list, cli) == NotNamed(list[..n], cli);
      } else {
        Snoc(NotNamed(list[..n], cli), list[n]);
      }
    }
  }

  lemma {:induction false} LookupOfNamed(list: seq<PortForward>, g: nat)
    ensures g in Guests(list) <==> Lookup(list, g).Some?
  {
    if list != [] {
      LookupOfNamed(list[..|list| - 1], g);
      assert list == list[..|list| - 1] + [list[|list| - 1]];
      if g in Guests(list) {
        var f :| f in list && f.guest == g;
        if f != list[|list| - 1] { assert f in list[..|list| - 1]; }
      }
      if Lookup(list, g).Some? { LookupIsAnEntry(list, g); }
    }
  }

  /** Leaving out the devcontainer forwards that the CLI overrides, before merging, gives every
      guest port the forward it would have had without leaving them out, whatever the
      configuration says. */
  lemma DroppingOverridden(config: seq<PortForward>, devcontainer: seq<PortForward>, cli: seq<PortForward>,
      runtime: seq<PortForward>, dropped: seq<PortForward>, whole: seq<PortForward>)
    requires IsMergeOf(NotNamed(devcontainer, Guests(cli)) + cli, runtime)
    requires IsMergeOf(config + runtime, dropped)
    requires IsMergeOf(config + (devcontainer + cli), whole)
    ensures forall g :: Lookup(dropped, g) == Lookup(whole, g)
    ensures |dropped| == |whole|
  {
    var left := NotNamed(devcontainer, Guests(cli));
    MergeTwiceRight(config, left, cli, runtime, dropped);
    MergeKeepsLookups(config + (left + cli), dropped);
    MergeKeepsLookups(config + (devcontainer + cli), whole);
    forall g ensures Lookup(dropped, g) == Lookup(whole, g) {
      LookupOfConcat(config, left + cli, g);
      LookupOfConcat(config, devcontainer + cli, g);
      LookupOfConcat(left, cli, g);
      LookupOfConcat(devcontainer, cli, g);
      LookupOfNotNamed(devcontainer, Guests(cli), g);
      LookupOfNamed(cli, g);
    }
    SameLookupsSameLength(dropped, whole, GuestPorts(dropped), GuestPorts(whole));
  }

  lemma SameLookupsSameLength(a: seq<PortForward>, b: seq<PortForward>, ports: seq<nat>, others: seq<nat>)
    requires ports == GuestPorts(a) && others == GuestPorts(b)
    requires |a| == |ports| && |b| == |others|
    requires forall g :: Lookup(a, g) == Lookup(b, g)
    ensures |a| == |b|
  {
    hide GuestPorts, Lookup;
    PortsAreDistinct(a);
    PortsAreDistinct(b);
    forall g ensures g in ports <==> g in others {
      LookupFinds(a, g);
      LookupFinds(b, g);
    }
    DistinctCount(ports);
    DistinctCount(others);
    assert PortSet(ports) == PortSet(others);
  }

  function PortSet(ports: seq<nat>): set<nat> {
    set g | g in ports
  }

  lemma {:induction false} DistinctCount(ports: seq<nat>)
    requires forall i, j | 0 <= i < j < |ports| :: ports[i] != ports[j]
    ensures |PortSet(ports)| == |ports|
  {
    if ports == [] {
      assert PortSet(ports) == {};
    } else {
      var n := |ports| - 1;
      DistinctCount(ports[..n]);
      assert ports == ports[..n] + [ports[n]];
      assert ports[n] !in ports[..n];
      assert PortSet(ports) == PortSet(ports[..n]) + {ports[n]};
    }
  }

  // ---------------------------------------------------------------- the order of the list

  lemma {:induction false} WithoutConcat(a: seq<nat>, b: seq<nat>, taken: seq<nat>)
    ensures Without(a + b, taken) == Without(a, taken) + Without(b, taken)
  {
    if b == [] {
      assert a + b == a;
    } else {
      var n := |b| - 1;
      WithoutConcat(a, b[..n], taken);
      assert a + b == (a + b[..n]) + [b[n]];
      WithoutOneMore(a + b[..n], taken, b[n]);
    }
  }

  lemma {:induction false} WithoutSame(ports: seq<nat>, taken: seq<nat>, others: seq<nat>)
    requires forall g | g in ports :: g in taken <==> g in others
    ensures Without(ports, taken) == Without(ports, others)
  {
    if ports != [] { WithoutSame(ports[..|ports| - 1], taken, others); }
  }

  lemma {:induction false} WithoutNone(ports: seq<nat>, taken: seq<nat>)
    requires forall g | g in ports :: g !in taken
    ensures Without(ports, taken) == ports
  {
    if ports != [] { WithoutNone(ports[..|ports| - 1], taken); }
  }

  lemma {:induction false} WithoutBoth(ports: seq<nat>, taken: seq<nat>, others: seq<nat>)
    ensures Without(Without(ports, taken), others) == Without(ports, taken + others)
  {
    if ports != [] {
      var earlier, g := ports[..|ports| - 1], ports[|ports| - 1];
      WithoutBoth(earlier, taken, others);
      assert ports == earlier + [g];
      hide Without;
      WithoutOneMore(earlier, taken, g);
      WithoutOneMore(earlier, taken + others, g);
      if g in taken {
        assert Without(earlier, taken) + [] == Without(earlier, taken);
      } else {
        WithoutOneMore(Without(earlier, taken), others, g);
      }
    }
  }

  lemma WithoutTwice(ports: seq<nat>, taken: seq<nat>, others: seq<nat>)
    ensures Without(Without(ports, taken), others) == Without(Without(ports, others), taken)
  {
    WithoutBoth(ports, taken, others);
    WithoutBoth(ports, others, taken);
    WithoutSame(ports, taken + others, others + taken);
  }

  lemma {:induction false} WithoutShrinks(ports: seq<nat>, taken: seq<nat>)
    ensures |Without(ports, taken)| <= |ports|
    ensures |Without(ports, taken)| == |ports| ==> forall g | g in ports :: g !in taken
    ensures (forall g | g in ports :: g in taken) ==> Without(ports, taken) == []
  {
    if ports != [] {
      var n := |ports| - 1;
      WithoutShrinks(ports[..n], taken);
      assert ports == ports[..n] + [ports[n]];
    }
  }

  lemma {:induction false} WithoutDistinct(ports: seq<nat>, taken: seq<nat>)
    requires Distinct(ports)
    ensures Distinct(Without(ports, taken))
  {
    if ports != [] {
      var n := |ports| - 1;
      WithoutDistinct(ports[..n], taken);
      WithoutMembers(ports[..n], taken, ports[n]);
    }
  }

  lemma NotNamedOneMore(list: seq<PortForward>, f: PortForward, cli: set<nat>)
    ensures NotNamed(list + [f], cli) == NotNamed(list, cli) + (if f.guest in cli then [] else [f])
  {
    assert (list + [f])[..|list|] == list;
  }

  lemma {:induction false} GuestPortsOfNotNamed(list: seq<PortForward>, cli: seq<PortForward>)
    ensures GuestPorts(NotNamed(list, Guests(cli))) == Without(GuestPorts(list), GuestPorts(cli))
  {
    if list != [] {
      var earlier, f := list[..|list| - 1], list[|list| - 1];
      GuestPortsOfNotNamed(earlier, cli);
      assert list == earlier + [f];
      hide GuestPorts, NotNamed, Without, Guests, Lookup;
      var kept, ports := NotNamed(earlier, Guests(cli)), GuestPorts(earlier);
      LookupOfNamed(cli, f.guest);
      LookupFinds(cli, f.guest);
      Snoc(earlier, f);
      Snoc(kept, f);
      NotNamedOneMore(earlier, f, Guests(cli));
      WithoutMembers(ports, GuestPorts(cli), f.guest);
      WithoutOneMore(ports, GuestPorts(cli), f.guest);
      assert kept + [] == kept && Without(ports, GuestPorts(cli)) + [] == Without(ports, GuestPorts(cli));
    }
  }

  ghost predicate Distinct(ports: seq<nat>) {
    forall i, j | 0 <= i < j < |ports| :: ports[i] != ports[j]
  }

  /** The ports a list adds to those of the configuration, in order. */
  function Added(list: seq<PortForward>, config: seq<PortForward>): seq<nat> {
    Without(GuestPorts(list), GuestPorts(config))
  }

  /** The last ports of `d` are the first ones of `c`, and no others are shared. */
  predicate Overlaps(d: seq<nat>, c: seq<nat>) {
    var shared := |d| - |Without(d, c)|;
    0 <= shared <= |c| && shared <= |d| && d[|d| - shared..] == c[..shared]
  }

  /** The ports after dropping: those of the configuration, the devcontainer's that are not
      overridden, the CLI's. */
  lemma PortsDropped(config: seq<PortForward>, devcontainer: seq<PortForward>, cli: seq<PortForward>)
    ensures
      GuestPorts(config + (NotNamed(devcontainer, Guests(cli)) + cli)) ==
        GuestPorts(config) +
        (Without(Added(devcontainer, config), Added(cli, config)) + Added(cli, config))
  {
    hide GuestPorts, Without, NotNamed, Guests;
    var left := NotNamed(devcontainer, Guests(cli));
    var (d, c, l) := (GuestPorts(devcontainer), GuestPorts(config), GuestPorts(cli));
    GuestPortsOfNotNamed(devcontainer, cli);
    GuestPortsAppended(config, left + cli);
    GuestPortsAppended(left, cli);
    forall g | g in l ensures g !in Without(d, l) { WithoutMembers(d, l, g); }
    WithoutNone(l, Without(d, l));
    WithoutConcat(Without(d, l), l, c);
    WithoutTwice(d, l, c);
    forall g | g in Without(d, c) ensures g in l <==> g in Without(l, c) {
      WithoutMembers(d, c, g);
      WithoutMembers(l, c, g);
    }
    WithoutSame(Without(d, c), l, Without(l, c));
  }

  /** The ports without dropping: an overridden one keeps the devcontainer's place. */
  lemma PortsWhole(config: seq<PortForward>, devcontainer: seq<PortForward>, cli: seq<PortForward>)
    ensures
      GuestPorts(config + (devcontainer + cli)) ==
        GuestPorts(config) +
        (Added(devcontainer, config) + Without(Added(cli, config), Added(devcontainer, config)))
  {
    hide GuestPorts, Without;
    var (d, c, l) := (GuestPorts(devcontainer), GuestPorts(config), GuestPorts(cli));
    GuestPortsAppended(config, devcontainer + cli);
    GuestPortsAppended(devcontainer, cli);
    WithoutConcat(d, Without(l, d), c);
    WithoutTwice(l, d, c);
    forall g | g in Without(l, c) ensures g in d <==> g in Without(d, c) {
      WithoutMembers(d, c, g);
      WithoutMembers(l, c, g);
    }
    WithoutSame(Without(l, c), d, Without(d, c));
  }

  /** Both orders agree exactly on overlapping lists. */
  lemma OrdersAgree(d: seq<nat>, c: seq<nat>)
    requires Distinct(d) && Distinct(c)
    ensures Without(d, c) + c == d + Without(c, d) <==> Overlaps(d, c)
  {
    hide Without;
    WithoutShrinks(d, c);
    WithoutShrinks(c, d);
    var shared := |d| - |Without(d, c)|;
    if Without(d, c) + c == d + Without(c, d) {
      SharedMiddle(Without(d, c), c, d, Without(c, d));
    } else if Overlaps(d, c) {
      assert d == d[..|d| - shared] + c[..shared] && c == c[..shared] + c[shared..];
      OverlapsAgree(d, c, d[..|d| - shared], c[..shared], c[shared..]);
    }
  }

  lemma SharedMiddle(a: seq<nat>, c: seq<nat>, d: seq<nat>, b: seq<nat>)
    requires a + c == d + b && |a| <= |d| && |b| <= |c|
    ensures var shared := |d| - |a|; shared <= |c| && d[|d| - shared..] == c[..shared]
  {
    var shared := |d| - |a|;
    assert |a + c| == |d + b|;
    assert (a + c)[|a|..|d|] == c[..shared];
    assert (d + b)[|a|..|d|] == d[|a|..];
  }

  lemma OverlapsAgree(d: seq<nat>, c: seq<nat>, l: seq<nat>, s: seq<nat>, r: seq<nat>)
    requires Distinct(d) && Distinct(c) && d == l + s && c == s + r && |Without(d, c)| == |l|
    ensures Without(d, c) + c == d + Without(c, d)
  {
    hide Without;
    WithoutConcat(l, s, c);
    WithoutConcat(s, r, d);
    WithoutShrinks(s, c);
    WithoutShrinks(s, d);
    WithoutShrinks(l, c);
    WithoutNone(l, c);
    TailIsFresh(s, r);
    assert forall g | g in r :: g in c;
    WithoutNone(r, d);
    assert l + (s + r) == (l + s) + r;
  }

  lemma TailIsFresh(s: seq<nat>, r: seq<nat>)
    requires Distinct(s + r)
    ensures forall g | g in r :: g !in s
  {
    forall j | 0 <= j < |r| ensures r[j] !in s {
      assert (s + r)[|s| + j] == r[j];
      assert forall i | 0 <= i < |s| :: (s + r)[i] == s[i];
    }
  }

  /** Leaving out the overridden forwards gives the very same list exactly when, of the ports that
      the configuration does not place, the last of the devcontainer's are the first of the CLI's
      and no others are shared. Only then does an overriding forward stay where the overridden one
      was. */
  lemma SameOrderExactly(config: seq<PortForward>, devcontainer: seq<PortForward>, cli: seq<PortForward>,
      runtime: seq<PortForward>, dropped: seq<PortForward>, whole: seq<PortForward>)
    requires IsMergeOf(NotNamed(devcontainer, Guests(cli)) + cli, runtime)
    requires IsMergeOf(config + runtime, dropped)
    requires IsMergeOf(config + (devcontainer + cli), whole)
    ensures dropped == whole <==> Overlaps(Added(devcontainer, config), Added(cli, config))
  {
    hide GuestPorts, Lookup, Without, NotNamed, Guests, Overlaps;
    var (d, c, first) := (Added(devcontainer, config), Added(cli, config), GuestPorts(config));
    DroppingOverridden(config, devcontainer, cli, runtime, dropped, whole);
    var left := NotNamed(devcontainer, Guests(cli));
    MergeTwiceRight(config, left, cli, runtime, dropped);
    MergeKeepsLookups(config + (left + cli), dropped);
    MergeKeepsLookups(config + (devcontainer + cli), whole);
    PortsDropped(config, devcontainer, cli);
    PortsWhole(config, devcontainer, cli);
    PortsAreDistinct(devcontainer);
    PortsAreDistinct(cli);
    WithoutDistinct(GuestPorts(devcontainer), first);
    WithoutDistinct(GuestPorts(cli), first);
    OrdersAgree(d, c);
    CancelPrefix(first, Without(d, c) + c, d + Without(c, d));
    if GuestPorts(dropped) == GuestPorts(whole) {
      forall i | 0 <= i < |dropped| ensures dropped[i] == whole[i] {
        assert dropped[i].guest == whole[i].guest;
      }
    }
  }

  lemma CancelPrefix(a: seq<nat>, b: seq<nat>, c: seq<nat>)
    ensures a + b == a + c <==> b == c
  {
    if a + b == a + c {
      assert b == (a + b)[|a|..] && c == (a + c)[|a|..];
    }
  }

  /** The order can differ: the CLI's forward takes the place of the devcontainer's only if that
      is still there. */
  lemma OrderMayDiffer(one: PortForward, two: PortForward, nine: PortForward)
    requires one.guest == nine.guest == 1 && two.guest == 2
    ensures NotNamed([one, two], {1}) == [two]
    ensures IsMergeOf([one, two] + [nine], [nine, two])
    ensures IsMergeOf([two] + [nine], [two, nine])
  {
    assert [one, two][..1] == [one] && [one][..0] == [];
    assert NotNamed([one], {1}) == [];
    assert IsMergeOf([], []);
    hide GuestPorts, Lookup, NotNamed, IsMergeOf;
    assert [] + [one] == [one] && [] + [two] == [two] && [one] + [two] == [one, two];
    MergeOneMore([], [], one, 0);
    MergeOneMore([one], [one], two, 1);
    MergeOneMore([one, two], [one, two], nine, 0);
    assert [one, two][0 := nine] == [nine, two];
    MergeOneMore([], [], two, 0);
    MergeOneMore([two], [two], nine, 1);
    assert [two] + [nine] == [two, nine];
  }
}
