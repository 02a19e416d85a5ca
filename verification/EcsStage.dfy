/**
 The ECS stage of query processing: which client subnet a query is keyed by and which one it
 carries upstream, after client option, simulation, tenant policy, derivation and default.
 */
module EcsStage {
  import opened Prelude
  import opened Addr

  datatype EdnsOption =
    | ClientSubnet(family: nat, source: nat, scope: nat, address: bytes)
    | OtherOption(code: nat, data: bytes)

  datatype Rr = Opt(udpSize: nat, flags: nat, options: seq<EdnsOption>) | OtherRr(data: bytes)

  /** A query: everything before the additional section is carried along untouched. */
  datatype Msg = Msg(head: bytes, extra: seq<Rr>)

  /** The empty sequence stands for a missing address. */
  datatype Info = Info(family: nat, source: nat, scope: nat, address: bytes, has: bool)

  const NoInfo := Info(0, 0, 0, [], false)

  // ---------------------------------------------------------------------- the OPT record

  /** The last OPT record of the additional section, -1 when there is none. */
  function OptAt(extra: seq<Rr>): (i: int)
    ensures -1 <= i < |extra| && (i >= 0 ==> extra[i].Opt?)
    ensures forall j :: i < j < |extra| ==> !extra[j].Opt?
  {
    if extra == [] then -1
    else if extra[|extra| - 1].Opt? then |extra| - 1
    else OptAt(extra[..|extra| - 1])
  }

  /** The options of the OPT record. */
  function OptionsOf(m: Msg): seq<EdnsOption> {
    if OptAt(m.extra) < 0 then [] else m.extra[OptAt(m.extra)].options
  }

  function Others(options: seq<EdnsOption>): (r: seq<EdnsOption>)
    ensures |r| <= |options|
  {
    if options == [] then []
    else
      var front, last := Others(options[..|options| - 1]), options[|options| - 1];
      if last.ClientSubnet? then front else front + [last]
  }

  function Subnets(options: seq<EdnsOption>): seq<EdnsOption> {
    if options == [] then []
    else
      var front, last := Subnets(options[..|options| - 1]), options[|options| - 1];
      if last.ClientSubnet? then front + [last] else front
  }

  lemma {:induction false} FilterSnoc(options: seq<EdnsOption>, o: EdnsOption)
    ensures Others(options + [o]) == if o.ClientSubnet? then Others(options) else Others(options) + [o]
    ensures Subnets(options + [o]) == if o.ClientSubnet? then Subnets(options) + [o] else Subnets(options)
  {
  }

  lemma {:induction false} OthersHaveNoSubnet(options: seq<EdnsOption>)
    ensures Subnets(Others(options)) == [] && Others(Others(options)) == Others(options)
    decreases |options|
  {
    if options != [] {
      var front, last := options[..|options| - 1], options[|options| - 1];
      OthersHaveNoSubnet(front);
      FilterSnoc(Others(front), last);
    }
  }

  // ------------------------------------------------------------- subnets of a whole query

  /** The subnet options of all OPT records, in order. */
  function SubnetsIn(extra: seq<Rr>): seq<EdnsOption> {
    if extra == [] then []
    else
      var front, last := SubnetsIn(extra[..|extra| - 1]), extra[|extra| - 1];
      if last.Opt? then front + Subnets(last.options) else front
  }

  function AllSubnets(m: Msg): seq<EdnsOption> { SubnetsIn(m.extra) }

  /** The records before the OPT record that the program looks at. */
  function Before(m: Msg): seq<Rr> { if OptAt(m.extra) < 0 then [] else m.extra[..OptAt(m.extra)] }

  /** Subnet options in earlier OPT records, which the program never sees. */
  function Hidden(m: Msg): seq<EdnsOption> { SubnetsIn(Before(m)) }

  lemma {:induction false} SubnetsSnoc(extra: seq<Rr>, r: Rr)
    ensures SubnetsIn(extra + [r]) == if r.Opt? then SubnetsIn(extra) + Subnets(r.options) else SubnetsIn(extra)
  {
    assert (extra + [r])[..|extra|] == extra;
  }

  lemma {:induction false} SubnetsUpTo(extra: seq<Rr>, n: nat)
    requires n <= |extra| && forall j :: n <= j < |extra| ==> !extra[j].Opt?
    ensures SubnetsIn(extra) == SubnetsIn(extra[..n])
    decreases |extra|
  {
    if n == |extra| {
      assert extra[..n] == extra;
    } else {
      SubnetsUpTo(extra[..|extra| - 1], n);
      assert extra[..|extra| - 1][..n] == extra[..n];
    }
  }

  /** All subnet options of a query: the hidden ones, then those of its OPT record. */
  lemma {:induction false} SubnetsSplit(m: Msg)
    ensures AllSubnets(m) == Hidden(m) + Subnets(OptionsOf(m))
  {
    var i := OptAt(m.extra);
    if i < 0 {
      SubnetsUpTo(m.extra, 0);
      assert m.extra[..0] == [];
    } else {
      SubnetsUpTo(m.extra, i + 1);
      assert m.extra[..i + 1] == m.extra[..i] + [m.extra[i]];
      SubnetsSnoc(m.extra[..i], m.extra[i]);
    }
  }

  /** Filtering in the options' own storage: the kept ones move to the front. */
  method DropSubnets(a: array<EdnsOption>) returns (n: nat)
    modifies a
    ensures n <= a.Length && a[..n] == Others(old(a[..]))
  {
    n := 0;
    ghost var was := a[..];
    for i := 0 to a.Length
      invariant n <= i && a[..n] == Others(was[..i])
      invariant forall j :: i <= j < a.Length ==> a[j] == was[j]
    {
      assert was[..i + 1] == was[..i] + [was[i]];
      FilterSnoc(was[..i], was[i]);
      var o := a[i];
      if !o.ClientSubnet? {
        ghost var kept := a[..n];
        a[n] := o;
        n := n + 1;
        assert a[..n] == kept + [o];
      }
    }
    assert was[..a.Length] == was;
  }

  // --------------------------------------------------------------------- subnet handling

  /** Masking with a four-octet mask; an address of another form is lost. */
  function MaskV4(address: bytes, ones: nat): bytes {
    if To4(address).Some? then Masked(To4(address).value, ones) else []
  }

  function Normalize(e: Info): Info {
    var s0 := if e.source == 0 then 24 else e.source;
    var s1 := if s0 > 32 && e.family == 1 then 32 else s0;
    var s := if s1 > 128 && e.family == 2 then 128 else s1;
    var address :=
      if e.family == 1 && |e.address| == 4 && s < 32 then Masked(e.address, s)
      else if e.family == 2 && |e.address| == 16 && s < 128 then Masked(e.address, s)
      else e.address;
    e.(source := s, address := address)
  }

  function ClampScope(e: Info, max: int): Info {
    if !e.has || e.family != 1 || e.address == [] then e
    else if max < 0 || max > 32 || e.source <= max then e
    else e.(source := max, address := if max < 32 then MaskV4(e.address, max) else e.address)
  }

  /** The first subnet option of the query, normalised. */
  function FirstSubnet(options: seq<EdnsOption>): Info {
    if options == [] then NoInfo
    else
      var o := options[0];
      if o.ClientSubnet? then Normalize(Info(o.family, o.source, o.scope, o.address, true))
      else FirstSubnet(options[1..])
  }

  function EcsFromMsg(m: Msg): Info { FirstSubnet(OptionsOf(m)) }

  function AsOption(e: Info): EdnsOption { ClientSubnet(e.family, e.source, 0, e.address) }

  /** A copy of the query whose OPT record carries this subnet and no other. */
  function Attach(m: Msg, e: Info): Msg {
    if !e.has then m
    else
      var i := OptAt(m.extra);
      if i < 0 then m.(extra := m.extra + [Opt(4096, 0, [AsOption(e)])])
      else m.(extra := m.extra[i := m.extra[i].(udpSize := 4096, options := Others(m.extra[i].options) + [AsOption(e)])])
  }

  function Strip(m: Msg): Msg {
    var i := OptAt(m.extra);
    if i < 0 then m else m.(extra := m.extra[i := m.extra[i].(options := Others(m.extra[i].options))])
  }

  /** The cache scope: global, or address and length. */
  datatype Scope = Global | Scoped(address: bytes, source: nat)

  function KeyOf(e: Option<Info>): Scope {
    if e.None? || !e.value.has || e.value.address == [] || e.value.source == 0 then Global
    else Scoped(e.value.address, e.value.source)
  }

  function Has(e: Option<Info>): bool { e.Some? && e.value.has }

  // ---------------------------------------------------------------------------- the stage

  /** `defaultEcs` is absent when the configured text is empty or malformed. */
  datatype Tenant = Tenant(allowEcs: bool, defaultEcs: Option<Info>)

  /** `derived` is the result of the derivation for an internal IPv6 client, absent for all others. */
  datatype Context = Context(scopeMax: int, tenant: Option<Tenant>, simulate: Option<Info>, derived: Option<Info>)

  datatype Staged = Staged(ecs: Option<Info>, out: Msg)

  /** Client option or simulation. */
  function Chosen(c: Context, m: Msg): Staged {
    if c.simulate.Some? then
      var e := ClampScope(c.simulate.value, c.scopeMax);
      Staged(Some(e), Attach(m, e))
    else Staged(Some(ClampScope(EcsFromMsg(m), c.scopeMax)), m)
  }

  predicate Forbidden(c: Context) { c.tenant.Some? && !c.tenant.value.allowEcs }

  function Policed(c: Context, s: Staged): Staged {
    if Has(s.ecs) && Forbidden(c) then Staged(None, Strip(s.out)) else s
  }

  /** A supplied subnet where there is none yet. */
  function Supplied(s: Staged, e: Option<Info>): Staged {
    if !Has(s.ecs) && e.Some? then Staged(e, Attach(s.out, e.value)) else s
  }

  function DefaultOf(c: Context): Option<Info> { if c.tenant.Some? then c.tenant.value.defaultEcs else None }

  function Stage(c: Context, m: Msg): Staged {
    Supplied(Supplied(Policed(c, Chosen(c, m)), c.derived), DefaultOf(c))
  }

  /** The stage as it runs, one reassignment after the other. */
  method Process(c: Context, m: Msg) returns (ecs: Option<Info>, req: Msg, key: Scope)
    ensures Staged(ecs, req) == Stage(c, m) && key == KeyOf(ecs)
  {
    req := m;
    ecs := Some(ClampScope(EcsFromMsg(req), c.scopeMax));
    if c.simulate.Some? {
      ecs := Some(ClampScope(c.simulate.value, c.scopeMax));
      req := Attach(req, ecs.value);
    }
    if Has(ecs) && c.tenant.Some? && !c.tenant.value.allowEcs {
      ecs, req := None, Strip(req);
    }
    if !Has(ecs) && c.derived.Some? {
      ecs := c.derived;
      req := Attach(req, ecs.value);
    }
    if !Has(ecs) && c.tenant.Some? && c.tenant.value.defaultEcs.Some? {
      ecs := c.tenant.value.defaultEcs;
      req := Attach(req, ecs.value);
    }
    key := KeyOf(ecs);
  }

  lemma {:induction false} AttachCarries(m: Msg, e: Info)
    requires e.has
    ensures Subnets(OptionsOf(Attach(m, e))) == [AsOption(e)]
  {
    AttachLeavesOne(m, e);
  }

  /**
   Who goes before whom: the simulated subnet or else the client's, unless the tenant forbids it; then
   the derived one; then the tenant's default. A client's subnet leaves the query as it came, every
   other is the one and only that its OPT record then carries.
   */
  lemma {:induction false} StagePrecedence(c: Context, m: Msg)
    ensures
      var s := Stage(c, m);
      var own := ClampScope(if c.simulate.Some? then c.simulate.value else EcsFromMsg(m), c.scopeMax);
      if own.has && !(c.tenant.Some? && !c.tenant.value.allowEcs) then
        s.ecs == Some(own) && (if c.simulate.Some? then Subnets(OptionsOf(s.out)) == [AsOption(own)] else s.out == m)
      else if c.derived.Some? && c.derived.value.has then
        s.ecs == c.derived && Subnets(OptionsOf(s.out)) == [AsOption(c.derived.value)]
      else if c.tenant.Some? && c.tenant.value.defaultEcs.Some? && c.tenant.value.defaultEcs.value.has then
        s.ecs == c.tenant.value.defaultEcs && Subnets(OptionsOf(s.out)) == [AsOption(c.tenant.value.defaultEcs.value)]
      else !Has(s.ecs)
  {
    var s := Policed(c, Chosen(c, m));
    if c.simulate.Some? && Has(s.ecs) {
      AttachCarries(m, s.ecs.value);
    }
    if !Has(s.ecs) && Has(c.derived) {
      AttachCarries(s.out, c.derived.value);
    } else if !Has(s.ecs) && Has(DefaultOf(c)) {
      AttachCarries(Supplied(s, c.derived).out, DefaultOf(c).value);
    }
  }

  // -------------------------------------------------------------------------- properties

  lemma {:induction false} OptAtKept(extra: seq<Rr>, i: nat, r: Rr)
    requires i == OptAt(extra) && r.Opt?
    ensures OptAt(extra[i := r]) == i
  {
    assert extra[i := r][i].Opt?;
    assert forall j :: i < j < |extra| ==> extra[i := r][j] == extra[j];
  }

  lemma {:induction false} OptAtNew(extra: seq<Rr>, r: Rr)
    requires r.Opt?
    ensures OptAt(extra + [r]) == |extra|
  {
  }

  lemma {:induction false} AttachedOptions(m: Msg, e: Info)
    requires e.has
    ensures OptionsOf(Attach(m, e)) == Others(OptionsOf(m)) + [AsOption(e)]
  {
    var i := OptAt(m.extra);
    if i < 0 {
      OptAtNew(m.extra, Opt(4096, 0, [AsOption(e)]));
    } else {
      OptAtKept(m.extra, i, m.extra[i].(udpSize := 4096, options := Others(m.extra[i].options) + [AsOption(e)]));
    }
  }

  lemma {:induction false} AttachKeepsBefore(m: Msg, e: Info)
    ensures Hidden(Attach(m, e)) == Hidden(m)
  {
    var i, x := OptAt(m.extra), m.extra;
    if e.has && i < 0 {
      var r := Opt(4096, 0, [AsOption(e)]);
      OptAtNew(x, r);
      assert (x + [r])[..|x|] == x;
      SubnetsUpTo(x, 0);
      assert x[..0] == [];
    } else if e.has {
      var r := x[i].(udpSize := 4096, options := Others(x[i].options) + [AsOption(e)]);
      OptAtKept(x, i, r);
      assert x[i := r][..i] == x[..i];
    }
  }

  /**
   Attaching leaves the hidden subnet options, the other options and the given subnet; so the
   query carries that subnet and no other exactly when none was hidden.
   */
  lemma {:induction false} AttachLeavesOne(m: Msg, e: Info)
    requires e.has
    ensures Subnets(OptionsOf(Attach(m, e))) == [AsOption(e)]
    ensures AllSubnets(Attach(m, e)) == Hidden(m) + [AsOption(e)]
    ensures AllSubnets(Attach(m, e)) == [AsOption(e)] <==> Hidden(m) == []
    ensures Others(OptionsOf(Attach(m, e))) == Others(OptionsOf(m))
    ensures Attach(m, e).head == m.head
  {
    AttachedOptions(m, e);
    OthersHaveNoSubnet(OptionsOf(m));
    FilterSnoc(Others(OptionsOf(m)), AsOption(e));
    AttachKeepsBefore(m, e);
    SubnetsSplit(Attach(m, e));
    assert Hidden(m) != [] ==> |Hidden(m) + [AsOption(e)]| > 1;
  }

  /** The rest of the query: the option has scope 0, the OPT record a size of 4096, and all other records stay. */
  lemma {:induction false} AttachKeepsRest(m: Msg, e: Info)
    requires e.has
    ensures Attach(m, e).head == m.head
    ensures
      var x, i, o := Attach(m, e).extra, OptAt(m.extra), ClientSubnet(e.family, e.source, 0, e.address);
      if i < 0 then x == m.extra + [Opt(4096, 0, [o])]
      else x == m.extra[i := Opt(4096, m.extra[i].flags, Others(m.extra[i].options) + [o])]
  {
  }

  lemma {:induction false} StrippedOptions(m: Msg)
    ensures OptionsOf(Strip(m)) == Others(OptionsOf(m)) && Before(Strip(m)) == Before(m)
    ensures OptAt(Strip(m).extra) == OptAt(m.extra)
  {
    var i := OptAt(m.extra);
    if i >= 0 {
      var r := m.extra[i].(options := Others(m.extra[i].options));
      OptAtKept(m.extra, i, r);
      assert m.extra[i := r][..i] == m.extra[..i];
    }
  }

  /** Stripping leaves the hidden subnet options and no other; so none at all exactly when none was hidden. */
  lemma {:induction false} StripLeavesNone(m: Msg)
    ensures Subnets(OptionsOf(Strip(m))) == [] && Others(OptionsOf(Strip(m))) == Others(OptionsOf(m))
    ensures AllSubnets(Strip(m)) == Hidden(m) == Hidden(Strip(m))
    ensures AllSubnets(Strip(m)) == [] <==> Hidden(m) == []
    ensures Strip(Strip(m)) == Strip(m)
  {
    StrippedOptions(m);
    OthersHaveNoSubnet(OptionsOf(m));
    SubnetsSplit(Strip(m));
    var i := OptAt(m.extra);
    if i >= 0 {
      var r := m.extra[i].(options := Others(m.extra[i].options));
      assert m.extra[i := r][i := r] == m.extra[i := r];
    }
  }

  lemma {:induction false} NoSubnetToStrip(m: Msg)
    requires !EcsFromMsg(m).has
    ensures Strip(m) == m
  {
    var i := OptAt(m.extra);
    if i >= 0 {
      NoSubnetNoFilter(m.extra[i].options);
    }
  }

  lemma {:induction false} NoSubnetNoFilter(options: seq<EdnsOption>)
    requires !FirstSubnet(options).has
    ensures Others(options) == options
  {
    forall i | 0 <= i < |options| ensures !options[i].ClientSubnet? {
      NoneAt(options, i);
    }
    AllOthers(options);
  }

  lemma {:induction false} NoneAt(options: seq<EdnsOption>, i: nat)
    requires !FirstSubnet(options).has && i < |options|
    ensures !options[i].ClientSubnet?
    decreases i
  {
    if i > 0 {
      NoneAt(options[1..], i - 1);
    }
  }

  lemma {:induction false} AllOthers(options: seq<EdnsOption>)
    requires forall i :: 0 <= i < |options| ==> !options[i].ClientSubnet?
    ensures Others(options) == options
    decreases |options|
  {
    if options != [] {
      AllOthers(options[..|options| - 1]);
    }
  }

  lemma {:induction false} PolicedQuery(c: Context, m: Msg)
    requires Forbidden(c) && c.simulate.None?
    ensures Policed(c, Chosen(c, m)).out == Strip(m) && !Has(Policed(c, Chosen(c, m)).ecs)
  {
    if !EcsFromMsg(m).has {
      NoSubnetToStrip(m);
    }
  }

  function BareRr(r: Rr): Rr { if r.Opt? then r.(options := Others(r.options)) else r }

  /** The query without any subnet option in any of its OPT records. */
  function Bare(m: Msg): Msg { m.(extra := seq(|m.extra|, i requires 0 <= i < |m.extra| => BareRr(m.extra[i]))) }

  /** The queries differ at most in the subnet options of their OPT records. */
  predicate SameButSubnets(a: Msg, b: Msg) { Bare(a) == Bare(b) }

  lemma {:induction false} SameButSubnetsAt(a: Msg, b: Msg, i: nat)
    requires SameButSubnets(a, b) && i < |a.extra|
    ensures |a.extra| == |b.extra| && BareRr(a.extra[i]) == BareRr(b.extra[i])
    ensures a.extra[i].Opt? <==> b.extra[i].Opt?
  {
    assert |Bare(a).extra| == |Bare(b).extra|;
    assert Bare(a).extra[i] == Bare(b).extra[i];
  }

  lemma {:induction false} SameOptAt(a: Msg, b: Msg)
    requires SameButSubnets(a, b)
    ensures |a.extra| == |b.extra| && OptAt(a.extra) == OptAt(b.extra)
  {
    assert |Bare(a).extra| == |Bare(b).extra|;
    var i, j := OptAt(a.extra), OptAt(b.extra);
    if i >= 0 {
      SameButSubnetsAt(a, b, i);
    }
    if j >= 0 {
      SameButSubnetsAt(a, b, j);
    }
  }

  /** Stripped queries that differ only in subnet options are equal exactly when what comes before their OPT record is. */
  lemma {:induction false} StrippedAgreeIff(a: Msg, b: Msg)
    requires SameButSubnets(a, b)
    ensures Strip(a) == Strip(b) <==> Before(a) == Before(b)
  {
    SameOptAt(a, b);
    var i := OptAt(a.extra);
    StrippedOptions(a);
    StrippedOptions(b);
    assert a.head == Bare(a).head == Bare(b).head == b.head;
    if Before(a) == Before(b) {
      forall k | 0 <= k < |a.extra| ensures Strip(a).extra[k] == Strip(b).extra[k] {
        SameButSubnetsAt(a, b, k);
        if k < i {
          assert Before(a)[k] == Before(b)[k];
        }
      }
      assert Strip(a).extra == Strip(b).extra;
    }
  }

  lemma {:induction false} AttachKeepsRecords(m: Msg, e: Info)
    requires OptAt(m.extra) >= 0
    ensures OptAt(Attach(m, e).extra) == OptAt(m.extra) && Before(Attach(m, e)) == Before(m)
  {
    var i, x := OptAt(m.extra), m.extra;
    if e.has {
      var r := x[i].(udpSize := 4096, options := Others(x[i].options) + [AsOption(e)]);
      OptAtKept(x, i, r);
      assert x[i := r][..i] == x[..i];
    }
  }

  lemma {:induction false} SuppliedKeepsRecords(s: Staged, e: Option<Info>)
    requires OptAt(s.out.extra) >= 0
    ensures OptAt(Supplied(s, e).out.extra) == OptAt(s.out.extra) && Before(Supplied(s, e).out) == Before(s.out)
  {
    if !Has(s.ecs) && e.Some? {
      AttachKeepsRecords(s.out, e.value);
    }
  }

  /** What comes before the OPT record goes out as it came in. */
  lemma {:induction false} StageKeepsRecords(c: Context, m: Msg)
    requires Forbidden(c) && c.simulate.None? && OptAt(m.extra) >= 0
    ensures Before(Stage(c, m).out) == Before(m)
  {
    PolicedQuery(c, m);
    StrippedOptions(m);
    var s := Policed(c, Chosen(c, m));
    SuppliedKeepsRecords(s, c.derived);
    SuppliedKeepsRecords(Supplied(s, c.derived), DefaultOf(c));
  }

  lemma {:induction false} NoneHidden(extra: seq<Rr>, k: nat)
    requires SubnetsIn(extra) == [] && k < |extra|
    ensures BareRr(extra[k]) == extra[k]
    decreases |extra|
  {
    if k < |extra| - 1 {
      NoneHidden(extra[..|extra| - 1], k);
    } else if extra[k].Opt? {
      NoSubnetsAllOthers(extra[k].options);
    }
  }

  lemma {:induction false} NoSubnetsAllOthers(options: seq<EdnsOption>)
    requires Subnets(options) == []
    ensures Others(options) == options
    decreases |options|
  {
    if options != [] {
      NoSubnetsAllOthers(options[..|options| - 1]);
    }
  }

  lemma {:induction false} NothingHiddenSameBefore(a: Msg, b: Msg)
    requires SameButSubnets(a, b) && Hidden(a) == [] && Hidden(b) == []
    ensures Before(a) == Before(b)
  {
    SameOptAt(a, b);
    forall k | 0 <= k < |Before(a)| ensures Before(a)[k] == Before(b)[k] {
      SameButSubnetsAt(a, b, k);
      NoneHidden(Before(a), k);
      NoneHidden(Before(b), k);
    }
  }

  /**
   A tenant that does not allow ECS: whatever subnet options the client puts into whichever OPT
   records, the key is the same. The outgoing query is the same exactly when the records before
   the last OPT record are, in particular when no subnet is hidden there.
   */
  lemma {:induction false} ClientSubnetDoesNotInterfere(c: Context, a: Msg, b: Msg)
    requires Forbidden(c) && c.simulate.None? && SameButSubnets(a, b)
    ensures KeyOf(Stage(c, a).ecs) == KeyOf(Stage(c, b).ecs)
    ensures Stage(c, a).out == Stage(c, b).out <==> Before(a) == Before(b)
    ensures Hidden(a) == [] && Hidden(b) == [] ==> Stage(c, a).out == Stage(c, b).out
  {
    PolicedQuery(c, a);
    PolicedQuery(c, b);
    SameOptAt(a, b);
    StrippedAgreeIff(a, b);
    if OptAt(a.extra) >= 0 {
      StageKeepsRecords(c, a);
      StageKeepsRecords(c, b);
    }
    if Hidden(a) == [] && Hidden(b) == [] {
      NothingHiddenSameBefore(a, b);
    }
  }

  /** The platform supplied the subnet itself: derived, default, or an accepted simulation. */
  predicate SuppliedByPlatform(c: Context, m: Msg) {
    Has(Stage(c, m).ecs) && (c.simulate.Some? || !Has(Policed(c, Chosen(c, m)).ecs))
  }

  /** The client's subnet was refused and none supplied instead. */
  predicate Refused(c: Context, m: Msg) {
    Forbidden(c) && c.simulate.None? && !Has(Stage(c, m).ecs)
  }

  /** What the key was computed from, as options: the subnet in use, or none. */
  function Keyed(c: Context, m: Msg): seq<EdnsOption> {
    if Has(Stage(c, m).ecs) then [AsOption(Stage(c, m).ecs.value)] else []
  }

  lemma {:induction false} AttachSubnets(m: Msg, e: Info)
    ensures Hidden(Attach(m, e)) == Hidden(m) && Others(OptionsOf(Attach(m, e))) == Others(OptionsOf(m))
    ensures e.has ==> AllSubnets(Attach(m, e)) == Hidden(m) + [AsOption(e)]
  {
    AttachKeepsBefore(m, e);
    if e.has {
      AttachLeavesOne(m, e);
    }
  }

  /** A step that supplies a subnet keeps the hidden and the other options, and its own is the one carried. */
  lemma {:induction false} SuppliedStep(s: Staged, e: Option<Info>)
    ensures Hidden(Supplied(s, e).out) == Hidden(s.out)
    ensures Others(OptionsOf(Supplied(s, e).out)) == Others(OptionsOf(s.out))
    ensures !Has(s.ecs) && Has(e) ==> AllSubnets(Supplied(s, e).out) == Hidden(s.out) + [AsOption(e.value)]
  {
    if !Has(s.ecs) && e.Some? {
      AttachSubnets(s.out, e.value);
    }
  }

  lemma {:induction false} PolicedStep(c: Context, m: Msg)
    ensures
      var s := Policed(c, Chosen(c, m));
      && Hidden(s.out) == Hidden(m) && Others(OptionsOf(s.out)) == Others(OptionsOf(m))
      && (c.simulate.Some? && Has(s.ecs) ==> AllSubnets(s.out) == Hidden(m) + [AsOption(s.ecs.value)])
      && (c.simulate.None? && Forbidden(c) ==> AllSubnets(s.out) == Hidden(m))
  {
    var s := Chosen(c, m);
    if c.simulate.Some? {
      AttachSubnets(m, s.ecs.value);
    }
    StripLeavesNone(s.out);
    if c.simulate.None? && Forbidden(c) {
      PolicedQuery(c, m);
    }
  }

  /**
   Whenever the platform supplied the subnet, or refused the client's, the query carries the hidden
   subnet options and then what the key was computed from. So it carries exactly what it is keyed
   by if and only if no OPT record before the last one has a subnet option.
   */
  lemma {:induction false} KeyedSubnetIsCarried(c: Context, m: Msg)
    requires SuppliedByPlatform(c, m) || Refused(c, m)
    ensures AllSubnets(Stage(c, m).out) == Hidden(m) + Keyed(c, m)
    ensures AllSubnets(Stage(c, m).out) == Keyed(c, m) <==> Hidden(m) == []
    ensures Others(OptionsOf(Stage(c, m).out)) == Others(OptionsOf(m))
    ensures Refused(c, m) ==> KeyOf(Stage(c, m).ecs) == Global
  {
    var s := Policed(c, Chosen(c, m));
    PolicedStep(c, m);
    SuppliedStep(s, c.derived);
    SuppliedStep(Supplied(s, c.derived), DefaultOf(c));
    CarriedIs(c, m);
    assert |Hidden(m) + Keyed(c, m)| == |Hidden(m)| + |Keyed(c, m)|;
  }

  lemma {:induction false} CarriedIs(c: Context, m: Msg)
    requires SuppliedByPlatform(c, m) || Refused(c, m)
    ensures AllSubnets(Stage(c, m).out) == Hidden(m) + Keyed(c, m)
  {
    var s := Policed(c, Chosen(c, m));
    PolicedStep(c, m);
    SuppliedStep(s, c.derived);
    SuppliedStep(Supplied(s, c.derived), DefaultOf(c));
    if Refused(c, m) {
      PolicedQuery(c, m);
      SubnetsSplit(Stage(c, m).out);
      RefusedCarriesNone(c, m);
    }
  }

  lemma {:induction false} RefusedCarriesNone(c: Context, m: Msg)
    requires Refused(c, m)
    ensures Subnets(OptionsOf(Stage(c, m).out)) == []
  {
    PolicedQuery(c, m);
    StripLeavesNone(m);
  }

  /** A second OPT record hides the client's subnet: it is keyed as global and sent upstream all the same. */
  lemma {:induction false} HiddenSubnetIsSent(a: EdnsOption, b: EdnsOption)
    requires a.ClientSubnet? && b.ClientSubnet?
    ensures
      var m := Msg([], [Opt(4096, 0, [a]), Opt(4096, 0, [b])]);
      var c := Context(24, Some(Tenant(false, None)), None, None);
      KeyOf(Stage(c, m).ecs) == Global && AllSubnets(Stage(c, m).out) == [a]
  {
    var m := Msg([], [Opt(4096, 0, [a]), Opt(4096, 0, [b])]);
    var c := Context(24, Some(Tenant(false, None)), None, None);
    assert Before(m) == [] + [Opt(4096, 0, [a])];
    SubnetsSnoc([], Opt(4096, 0, [a]));
    FilterSnoc([], a);
    assert [] + [a] == [a];
    PolicedQuery(c, m);
    KeyedSubnetIsCarried(c, m);
  }

  /** The client's own subnet is used. */
  predicate FromClient(c: Context, m: Msg) {
    c.simulate.None? && EcsFromMsg(m).has && !Forbidden(c)
  }

  /** The option is already what normalising and clamping would make of it, and gives a scope. */
  predicate Fixed(o: EdnsOption, max: int)
    requires o.ClientSubnet?
  {
    && 0 < o.source && o.address != []
    && (o.family == 1 ==>
          && o.source <= 32 && (|o.address| == 4 ==> Masked(o.address, o.source) == o.address)
          && (0 <= max <= 32 ==> o.source <= max))
    && (o.family == 2 ==> o.source <= 128 && (|o.address| == 16 ==> Masked(o.address, o.source) == o.address))
  }

  /** The query goes out as it came in, but its key names the subnet after normalising and clamping. */
  lemma {:induction false} ClientOptionIsForwarded(c: Context, m: Msg)
    requires FromClient(c, m)
    ensures Stage(c, m).out == m
    ensures Stage(c, m).ecs == Some(ClampScope(EcsFromMsg(m), c.scopeMax))
  {
  }

  function FirstOption(options: seq<EdnsOption>): Option<EdnsOption> {
    if options == [] then None
    else if options[0].ClientSubnet? then Some(options[0])
    else FirstOption(options[1..])
  }

  lemma {:induction false} FirstSubnetIsFirstOption(options: seq<EdnsOption>)
    ensures FirstSubnet(options).has <==> FirstOption(options).Some?
    ensures
      var o := FirstOption(options);
      o.Some? ==>
        && o.value.ClientSubnet?
        && FirstSubnet(options)
           == Normalize(Info(o.value.family, o.value.source, o.value.scope, o.value.address, true))
    decreases |options|
  {
    if options != [] {
      FirstSubnetIsFirstOption(options[1..]);
    }
  }

  lemma {:induction false} FixedIff(o: EdnsOption, max: int)
    requires o.ClientSubnet?
    ensures
      var e := ClampScope(Normalize(Info(o.family, o.source, o.scope, o.address, true)), max);
      KeyOf(Some(e)) == Scoped(o.address, o.source) <==> Fixed(o, max)
  {
    FullMask(o.address);
  }

  /**
   So the forwarded option is the one the key names exactly when nothing had to be normalised
   or clamped.
   */
  lemma {:induction false} ForwardedIsKeyedIff(c: Context, m: Msg)
    requires FromClient(c, m)
    ensures FirstOption(OptionsOf(m)).Some? && FirstOption(OptionsOf(m)).value.ClientSubnet?
    ensures
      var o := FirstOption(OptionsOf(m)).value;
      KeyOf(Stage(c, m).ecs) == Scoped(o.address, o.source) <==> Fixed(o, c.scopeMax)
  {
    ClientOptionIsForwarded(c, m);
    FirstSubnetIsFirstOption(OptionsOf(m));
    FixedIff(FirstOption(OptionsOf(m)).value, c.scopeMax);
  }

  /** A /32 from the client is forwarded as it is, while the key names its /24. */
  lemma {:induction false} FineSubnetLeavesUnclamped()
    ensures
      var o := ClientSubnet(1, 32, 0, [192, 0, 2, 77]);
      var m := Msg([], [Opt(4096, 0, [o])]);
      var s := Stage(Context(24, None, None, None), m);
      OptionsOf(s.out) == [o] && KeyOf(s.ecs) == Scoped([192, 0, 2, 0], 24)
  {
    var a: bytes := [192, 0, 2, 77];
    MaskedAt(a, 24, 0);
    MaskedAt(a, 24, 1);
    MaskedAt(a, 24, 2);
    MaskedAt(a, 24, 3);
    assert Pow2(8) == 256;
    assert Masked(a, 24) == [192, 0, 2, 0];
  }

  lemma {:induction false} NormalizedThenClamped(o: EdnsOption, max: int)
    requires o.ClientSubnet? && o.family == 1 && |o.address| == 4
    ensures
      var asked := if o.source == 0 then 24 else if o.source > 32 then 32 else o.source;
      var len := if 0 <= max < asked then max else asked;
      var e := ClampScope(Normalize(Info(o.family, o.source, o.scope, o.address, true)), max);
      e.source == len && e.address == Masked(o.address, len)
  {
    var asked := if o.source == 0 then 24 else if o.source > 32 then 32 else o.source;
    FullMask(o.address);
    if 0 <= max < asked {
      MaskOfMask(o.address, asked, max);
    }
  }

  /**
   The key of an IPv4 client is the block that its address lies in, of the length it asked for (24 when it
   names none, at most 32), cut down to the configured maximum where that is a length and shorter.
   */
  lemma {:induction false} ClientKeyIsBlock(c: Context, m: Msg, o: EdnsOption)
    requires FromClient(c, m) && FirstOption(OptionsOf(m)) == Some(o) && o.ClientSubnet? && o.family == 1 && |o.address| == 4
    ensures
      var asked := if o.source == 0 then 24 else if o.source > 32 then 32 else o.source;
      var len := if 0 <= c.scopeMax < asked then c.scopeMax else asked;
      var key := KeyOf(Stage(c, m).ecs);
      if len == 0 then key == Global
      else
        && key.Scoped? && key.source == len && |key.address| == 4
        && Value(key.address) == Value(o.address) - Value(o.address) % Pow2(32 - len)
  {
    var asked := if o.source == 0 then 24 else if o.source > 32 then 32 else o.source;
    var len := if 0 <= c.scopeMax < asked then c.scopeMax else asked;
    ClientOptionIsForwarded(c, m);
    FirstSubnetIsFirstOption(OptionsOf(m));
    NormalizedThenClamped(o, c.scopeMax);
    MaskIsFloor(o.address, len);
  }
}
