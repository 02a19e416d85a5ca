/**
 Dual-stack mapping: from an internal IPv6 client to the IPv4 subnet that is passed on as ECS.
 The IPv4 address is embedded in the IPv6 address, bound to it, or asked from an outside service,
 and it is used only when the location databases agree on the two addresses.
 */
module Dualstack {
  import opened Prelude
  import opened Addr
  import opened PrefixTable

  // -------------------------------------------------- section 2.2 of RFC 6052

  /** The IPv4 address inside an IPv6 address with a translation prefix of `pl` bits. */
  function Extract(v6: bytes, pl: nat): Option<bytes> {
    if |v6| != 16 then None
    else if pl == 32 then if v6[8] != 0 then None else Some(v6[4..8])
    else if pl == 40 then if v6[8] != 0 then None else Some([v6[5], v6[6], v6[7], v6[9]])
    else if pl == 48 then if v6[8] != 0 then None else Some([v6[6], v6[7], v6[9], v6[10]])
    else if pl == 56 then if v6[8] != 0 then None else Some([v6[7], v6[9], v6[10], v6[11]])
    else if pl == 64 then if v6[8] != 0 then None else Some([v6[9], v6[10], v6[11], v6[12]])
    else if pl == 96 then Some([v6[12], v6[13], v6[14], v6[15]])
    else None
  }

  predicate Supported(pl: nat) { pl in {32, 40, 48, 56, 64, 96} }

  /**
   The format of the standard: prefix, IPv4 address and suffix in a row, with a zero octet
   inserted as number 8 unless the prefix already reaches beyond it.
   */
  function Embed(prefix: bytes, v4: bytes, suffix: bytes): bytes {
    var all := prefix + v4 + suffix;
    if |prefix| == 12 || |all| < 8 then all else all[..8] + [0] + all[8..]
  }

  /** The parts have the sizes that a prefix of `pl` bits calls for. */
  predicate PartsOk(pl: nat, prefix: bytes, v4: bytes, suffix: bytes) {
    Supported(pl) && 8 * |prefix| == pl && |v4| == 4 && |suffix| == if pl == 96 then 0 else 11 - |prefix|
  }

  /** What the standard embeds is extracted. */
  lemma {:induction false} ExtractEmbedded(pl: nat, prefix: bytes, v4: bytes, suffix: bytes)
    requires PartsOk(pl, prefix, v4, suffix)
    ensures Extract(Embed(prefix, v4, suffix), pl) == Some(v4)
  {
    var all, x := prefix + v4 + suffix, Embed(prefix, v4, suffix);
    assert forall i :: 0 <= i < 4 ==> all[|prefix| + i] == v4[i];
    if pl != 96 {
      assert forall i :: 0 <= i < 8 ==> x[i] == all[i];
      assert forall i :: 9 <= i < 16 ==> x[i] == all[i - 1];
    }
    assert v4 == [v4[0], v4[1], v4[2], v4[3]];
    if pl == 32 {
      assert x[4..8] == v4;
    }
  }

  /** An address is refused exactly for an unsupported length or a non-zero octet 8. */
  lemma {:induction false} ExtractRefuses(v6: bytes, pl: nat)
    requires |v6| == 16
    ensures Extract(v6, pl).None? <==> !Supported(pl) || (pl != 96 && v6[8] != 0)
  {
  }

  /** Only addresses of the standard's format are accepted, and the parts tell the address. */
  lemma {:induction false} ExtractedIsEmbedded(v6: bytes, pl: nat)
    requires Extract(v6, pl).Some?
    ensures
      var k := pl / 8;
      var prefix, suffix := v6[..k], if pl == 96 then [] else v6[k + 5..];
      PartsOk(pl, prefix, Extract(v6, pl).value, suffix) && v6 == Embed(prefix, Extract(v6, pl).value, suffix)
  {
    var k, v4 := pl / 8, Extract(v6, pl).value;
    var prefix, suffix := v6[..k], if pl == 96 then [] else v6[k + 5..];
    var all := prefix + v4 + suffix;
    if pl == 96 {
      assert v6 == v6[..12] + [v6[12], v6[13], v6[14], v6[15]];
    } else {
      assert all[..8] == v6[..8];
      assert all[8..] == v6[9..];
      assert v6 == v6[..8] + [0] + v6[9..];
    }
  }

  /** IPv4-mapped addresses first, then the configured prefixes in order; malformed ones are skipped. */
  function EmbeddedIPv4(ip: bytes, prefixes: seq<Option<Subnet>>): Option<bytes> {
    if To4(ip).Some? then To4(ip) else if |ip| != 16 then None else FirstExtract(ip, prefixes)
  }

  function FirstExtract(ip: bytes, prefixes: seq<Option<Subnet>>): Option<bytes> {
    if prefixes == [] then None
    else
      var p := prefixes[0];
      if p.Some? && Contains(p.value, ip) && Extract(ip, p.value.ones).Some? then Extract(ip, p.value.ones)
      else FirstExtract(ip, prefixes[1..])
  }

  /** The configured prefix contains the address and an IPv4 address can be taken out of it. */
  predicate Gives(ip: bytes, p: Option<Subnet>) {
    p.Some? && Contains(p.value, ip) && Extract(ip, p.value.ones).Some?
  }

  /** The result is that of the first prefix that gives one, and there is none exactly when no prefix does. */
  lemma {:induction false} FirstExtractMeaning(ip: bytes, prefixes: seq<Option<Subnet>>)
    ensures FirstExtract(ip, prefixes).None? <==> forall i :: 0 <= i < |prefixes| ==> !Gives(ip, prefixes[i])
    ensures FirstExtract(ip, prefixes).Some? ==>
              exists i :: 0 <= i < |prefixes| && Gives(ip, prefixes[i])
                          && FirstExtract(ip, prefixes) == Extract(ip, prefixes[i].value.ones)
                          && forall j :: 0 <= j < i ==> !Gives(ip, prefixes[j])
    decreases |prefixes|
  {
    if prefixes != [] && !Gives(ip, prefixes[0]) {
      var rest := prefixes[1..];
      FirstExtractMeaning(ip, rest);
      assert forall i :: 0 <= i < |rest| ==> rest[i] == prefixes[i + 1];
      if FirstExtract(ip, rest).Some? {
        var i :| 0 <= i < |rest| && Gives(ip, rest[i]) && FirstExtract(ip, rest) == Extract(ip, rest[i].value.ones)
                 && forall j :: 0 <= j < i ==> !Gives(ip, rest[j]);
        assert Gives(ip, prefixes[i + 1]);
        assert forall j :: 0 <= j < i + 1 ==> !Gives(ip, prefixes[j]) by {
          assert forall j :: 0 < j < i + 1 ==> prefixes[j] == rest[j - 1];
        }
      }
    }
  }

  lemma {:induction false} MaskedAligned(ip: bytes, k: nat)
    requires k <= |ip|
    ensures |Masked(ip, 8 * k)| == |ip|
    ensures forall i :: 0 <= i < |ip| ==> Masked(ip, 8 * k)[i] == if i < k then ip[i] else 0
  {
    forall i | 0 <= i < |ip| ensures Masked(ip, 8 * k)[i] == if i < k then ip[i] else 0 {
      MaskedAt(ip, 8 * k, i);
      if i >= k {
        assert Pow2(8) == 256;
      }
    }
  }

  lemma {:induction false} EmbedKeepsPrefix(pl: nat, prefix: bytes, v4: bytes, suffix: bytes, i: nat)
    requires PartsOk(pl, prefix, v4, suffix) && i < |prefix|
    ensures |Embed(prefix, v4, suffix)| == 16 && Embed(prefix, v4, suffix)[i] == prefix[i]
  {
    var all := prefix + v4 + suffix;
    assert all[i] == prefix[i];
    if pl != 96 {
      assert (all[..8] + [0] + all[8..])[i] == all[i];
    }
  }

  /** An address built from a configured prefix lies in it. */
  lemma {:induction false} EmbeddingIsContained(p: Subnet, v4: bytes, suffix: bytes)
    requires SubnetOk(p) && |p.ip| == 16 && PartsOk(p.ones, p.ip[..p.ones / 8], v4, suffix)
    ensures !Mapped(Embed(p.ip[..p.ones / 8], v4, suffix)) ==> Contains(p, Embed(p.ip[..p.ones / 8], v4, suffix))
  {
    var k := p.ones / 8;
    var x := Embed(p.ip[..k], v4, suffix);
    forall i | 0 <= i < k ensures |x| == 16 && x[i] == p.ip[i] {
      EmbedKeepsPrefix(p.ones, p.ip[..k], v4, suffix, i);
    }
    if !Mapped(x) {
      if Mapped(p.ip) {
        MappedIsLong(p);
        assert false;
      }
      MaskedAligned(x, k);
      MaskedAligned(p.ip, k);
      assert Masked(x, p.ones) == Masked(p.ip, p.ones);
    }
  }

  /** The client of a translator whose prefix is configured is mapped to its own IPv4 address. */
  lemma {:induction false} TranslatedClientIsMapped(prefixes: seq<Option<Subnet>>, i: nat, v4: bytes, suffix: bytes)
    requires i < |prefixes| && prefixes[i].Some? && SubnetOk(prefixes[i].value) && |prefixes[i].value.ip| == 16
    requires PartsOk(prefixes[i].value.ones, prefixes[i].value.ip[..prefixes[i].value.ones / 8], v4, suffix)
    requires
      var x := Embed(prefixes[i].value.ip[..prefixes[i].value.ones / 8], v4, suffix);
      && !Mapped(x)
      && forall j :: 0 <= j < i && prefixes[j].Some? ==>
                       !Contains(prefixes[j].value, x) || Extract(x, prefixes[j].value.ones).None?
    ensures EmbeddedIPv4(Embed(prefixes[i].value.ip[..prefixes[i].value.ones / 8], v4, suffix), prefixes) == Some(v4)
    decreases i
  {
    var p := prefixes[i].value;
    var x := Embed(p.ip[..p.ones / 8], v4, suffix);
    EmbeddingIsContained(p, v4, suffix);
    ExtractEmbedded(p.ones, p.ip[..p.ones / 8], v4, suffix);
    if i > 0 {
      assert prefixes[1..][i - 1] == prefixes[i];
      assert forall j :: 0 <= j < i - 1 ==> prefixes[1..][j] == prefixes[j + 1];
      TranslatedClientIsMapped(prefixes[1..], i - 1, v4, suffix);
    }
  }

  // ---------------------------------------------------------------------- verification

  datatype Geo = Geo(province: string, city: string, isp: string)

  datatype Verdict = Agree | NotConfigured | LookupMissing | IspMissing | IspMismatch | ProvinceMismatch | CityMismatch

  /** The two location databases; `norm` trims and folds case. */
  datatype Verifier = Verifier(v4: Option<bytes -> Option<Geo>>, v6: Option<bytes -> Option<Geo>>,
                               strict: bool, norm: string -> string)

  function Verify(v: Option<Verifier>, ip6: bytes, ip4: bytes): Verdict {
    if v.None? || v.value.v4.None? || v.value.v6.None? then NotConfigured
    else
      var g6, g4 := v.value.v6.value(ip6), v.value.v4.value(ip4);
      if g6.None? || g4.None? then LookupMissing
      else if g6.value.isp == "" || g4.value.isp == "" then IspMissing
      else if g6.value.isp != g4.value.isp then IspMismatch
      else
        var p6, p4 := v.value.norm(g6.value.province), v.value.norm(g4.value.province);
        if p6 == "" || p4 == "" || p6 != p4 then ProvinceMismatch
        else
          var c6, c4 := v.value.norm(g6.value.city), v.value.norm(g4.value.city);
          if v.value.strict && c6 != "" && c4 != "" && c6 != c4 then CityMismatch else Agree
  }

  /** The databases place both addresses with the same operator and in the same province. */
  predicate SamePlace(v: Verifier, a: Geo, b: Geo) {
    && a.isp == b.isp != "" && v.norm(a.province) == v.norm(b.province) != ""
    && (v.strict ==> v.norm(a.city) == "" || v.norm(b.city) == "" || v.norm(a.city) == v.norm(b.city))
  }

  lemma {:induction false} VerifyMeaning(v: Verifier, ip6: bytes, ip4: bytes)
    ensures Verify(Some(v), ip6, ip4).Agree? <==>
            && v.v6.Some? && v.v4.Some? && v.v6.value(ip6).Some? && v.v4.value(ip4).Some?
            && SamePlace(v, v.v6.value(ip6).value, v.v4.value(ip4).value)
  {
  }

  // ------------------------------------------------------------------------ derivation

  datatype Config = Config(
    verifier: Option<Verifier>,
    prefixes: seq<Option<Subnet>>,
    api: Option<bytes -> Option<bytes>>,
    deriveMask: int)

  /** A client subnet option; the address is kept in its short form. */
  datatype Ecs = Ecs(family: nat, source: nat, scope: nat, address: bytes)

  /** The subnet that a verified address is wrapped in; the length is stored in an octet. */
  function Wrap(v4: bytes, deriveMask: int): Ecs {
    var mask := if deriveMask <= 0 then 32 else deriveMask;
    Ecs(1, mask % 256, 0, if mask < 32 then Masked(v4, mask) else v4)
  }

  /** The address comes from this source and every earlier source has none. */
  ghost predicate FirstSource(cfg: Config, table: seq<Entry<bytes>>, ip: bytes, v4: bytes) {
    var e := EmbeddedIPv4(ip, cfg.prefixes);
    if e.Some? then v4 == e.value
    else if !Misses(table, ip) then exists i :: Best(table, ip, i) && v4 == table[i].value
    else cfg.api.Some? && cfg.api.value(ip) == Some(v4)
  }

  ghost predicate NoSource(cfg: Config, table: seq<Entry<bytes>>, ip: bytes) {
    EmbeddedIPv4(ip, cfg.prefixes).None? && Misses(table, ip) && (cfg.api.None? || cfg.api.value(ip).None?)
  }

  lemma {:induction false} FirstSourceIsUnique(cfg: Config, table: seq<Entry<bytes>>, ip: bytes, a: bytes, b: bytes)
    requires FirstSource(cfg, table, ip, a) && FirstSource(cfg, table, ip, b)
    ensures a == b
  {
    if EmbeddedIPv4(ip, cfg.prefixes).None? && !Misses(table, ip) {
      var i :| Best(table, ip, i) && a == table[i].value;
      var j :| Best(table, ip, j) && b == table[j].value;
      BestIsUnique(table, ip, i, j);
    }
  }

  method MapToIPv4(cfg: Config, table: BindingTable, ip: bytes) returns (r: Option<bytes>)
    ensures r.Some? ==> FirstSource(cfg, table.entries, ip, r.value)
    ensures r.None? ==> NoSource(cfg, table.entries, ip)
  {
    r := EmbeddedIPv4(ip, cfg.prefixes);
    if r.Some? {
      return;
    }
    r := table.Lookup(ip);
    if r.Some? {
      return;
    }
    if cfg.api.Some? {
      r := cfg.api.value(ip);
    }
  }

  /** The first source's address, on which the databases agree. */
  ghost predicate Verified(cfg: Config, table: seq<Entry<bytes>>, ip: bytes, v4: bytes) {
    FirstSource(cfg, table, ip, v4) && Verify(cfg.verifier, ip, v4).Agree?
  }

  /** Bindings come before the outside service, and after what the address itself tells. */
  lemma {:induction false} BoundClientIsMapped(cfg: Config, table: seq<Entry<bytes>>, ip: bytes, i: int, v4: bytes)
    requires Best(table, ip, i) && To4(ip).None? && forall j :: 0 <= j < |cfg.prefixes| ==> !Gives(ip, cfg.prefixes[j])
    ensures FirstSource(cfg, table, ip, v4) <==> v4 == table[i].value
  {
    FirstExtractMeaning(ip, cfg.prefixes);
    if FirstSource(cfg, table, ip, v4) && !Misses(table, ip) {
      FirstSourceIsUnique(cfg, table, ip, v4, table[i].value);
    }
  }

  /**
   Whatever the bindings and the outside service say, a client built from a configured prefix is mapped to
   its own IPv4 address and to no other, when no earlier prefix gives one.
   */
  lemma {:induction false} TranslatedClientIsSourced(cfg: Config, table: seq<Entry<bytes>>, i: nat, v4: bytes, suffix: bytes, v: bytes)
    requires i < |cfg.prefixes| && cfg.prefixes[i].Some? && SubnetOk(cfg.prefixes[i].value) && |cfg.prefixes[i].value.ip| == 16
    requires PartsOk(cfg.prefixes[i].value.ones, cfg.prefixes[i].value.ip[..cfg.prefixes[i].value.ones / 8], v4, suffix)
    requires
      var x := Embed(cfg.prefixes[i].value.ip[..cfg.prefixes[i].value.ones / 8], v4, suffix);
      !Mapped(x) && forall j :: 0 <= j < i ==> !Gives(x, cfg.prefixes[j])
    ensures
      var x := Embed(cfg.prefixes[i].value.ip[..cfg.prefixes[i].value.ones / 8], v4, suffix);
      FirstSource(cfg, table, x, v) <==> v == v4
  {
    var x := Embed(cfg.prefixes[i].value.ip[..cfg.prefixes[i].value.ones / 8], v4, suffix);
    forall j | 0 <= j < i && cfg.prefixes[j].Some?
      ensures !Contains(cfg.prefixes[j].value, x) || Extract(x, cfg.prefixes[j].value.ones).None?
    {
      assert !Gives(x, cfg.prefixes[j]);
    }
    TranslatedClientIsMapped(cfg.prefixes, i, v4, suffix);
  }

  lemma {:induction false} OnlyFirstSource(cfg: Config, table: seq<Entry<bytes>>, ip: bytes)
    requires NoSource(cfg, table, ip)
    ensures forall v4 :: !FirstSource(cfg, table, ip, v4)
  {
  }

  /** An ECS is derived exactly for IPv6 clients with a verified address, and it wraps that address. */
  method DeriveECS(cfg: Config, table: BindingTable, ip: bytes) returns (r: Option<Ecs>)
    ensures r.Some? <==> To4(ip).None? && exists v4 :: Verified(cfg, table.entries, ip, v4)
    ensures r.Some? ==> forall v4 :: Verified(cfg, table.entries, ip, v4) ==> r.value == Wrap(v4, cfg.deriveMask)
  {
    if To4(ip).Some? || cfg.verifier.None? {
      return None;
    }
    var v4 := MapToIPv4(cfg, table, ip);
    if v4.None? {
      OnlyFirstSource(cfg, table.entries, ip);
      return None;
    }
    forall x | FirstSource(cfg, table.entries, ip, x) ensures x == v4.value {
      FirstSourceIsUnique(cfg, table.entries, ip, x, v4.value);
    }
    if !Verify(cfg.verifier, ip, v4.value).Agree? {
      return None;
    }
    assert Verified(cfg, table.entries, ip, v4.value);
    r := Some(Wrap(v4.value, cfg.deriveMask));
  }

  /** The table was filled by its own insertion, and the outside service answers with IPv4 addresses. */
  ghost predicate ShortAnswers(cfg: Config, table: seq<Entry<bytes>>) {
    && (forall i :: 0 <= i < |table| ==> |table[i].value| == 4)
    && (cfg.api.Some? ==> forall ip :: cfg.api.value(ip).Some? ==> |cfg.api.value(ip).value| == 4)
  }

  lemma {:induction false} FirstExtractIsShort(ip: bytes, prefixes: seq<Option<Subnet>>)
    requires FirstExtract(ip, prefixes).Some?
    ensures |FirstExtract(ip, prefixes).value| == 4
    decreases |prefixes|
  {
    var p := prefixes[0];
    if !(p.Some? && Contains(p.value, ip) && Extract(ip, p.value.ones).Some?) {
      FirstExtractIsShort(ip, prefixes[1..]);
    }
  }

  /** Every derived ECS is a masked family-1 subnet of a verified address from the first source that has one. */
  lemma {:induction false} DerivedEcs(cfg: Config, table: seq<Entry<bytes>>, ip: bytes, v4: bytes)
    requires Verified(cfg, table, ip, v4) && ShortAnswers(cfg, table) && cfg.deriveMask <= 32
    ensures
      var e, mask := Wrap(v4, cfg.deriveMask), if cfg.deriveMask <= 0 then 32 else cfg.deriveMask;
      && |v4| == 4 && IsSubnet(e) && e.source == mask
      && Value(e.address) == Value(v4) - Value(v4) % Pow2(32 - mask)
  {
    if EmbeddedIPv4(ip, cfg.prefixes).Some? && To4(ip).None? {
      FirstExtractIsShort(ip, cfg.prefixes);
    }
    DerivedIsSubnet(v4, cfg.deriveMask);
  }

  predicate IsSubnet(e: Ecs) { e.family == 1 && e.scope == 0 && SubnetOk(Subnet(e.address, e.source)) && |e.address| == 4 }

  /** Within the range that the configuration allows, the result is a masked IPv4 subnet: the address rounded down to its block. */
  lemma {:induction false} DerivedIsSubnet(v4: bytes, deriveMask: int)
    requires |v4| == 4 && deriveMask <= 32
    ensures
      var e, mask := Wrap(v4, deriveMask), if deriveMask <= 0 then 32 else deriveMask;
      && IsSubnet(e) && e.source == mask
      && Value(e.address) == Value(v4) - Value(v4) % Pow2(32 - mask)
  {
    if 0 < deriveMask < 32 {
      MaskIsFloor(v4, deriveMask);
      MaskIsIdempotent(v4, deriveMask);
    } else {
      FullMask(v4);
    }
  }
}
