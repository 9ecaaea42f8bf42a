/** Resolving a request's client address behind proxies: backend/src/ragz/core/client_ip.py. */
module ClientIp {
  import opened Prelude
  import opened Text

  datatype Address = Address(version: nat, value: nat)
  /** A base address and the number of its bits that a member is free to differ in: the address length,
      32 or 128, less the prefix length. Host bits may be set in the base. */
  datatype Network = Network(version: nat, base: nat, hostBits: nat)

  /** The library calls: which characters strip() removes, and what the ipaddress parsers accept. */
  datatype Library = Library(space: char -> bool, address: string -> Option<Address>,
                             network: string -> Option<Network>)

  function Power(n: nat): (p: nat)
    ensures p > 0
  {
    if n == 0 then 1 else 2 * Power(n - 1)
  }

  /** The address and the base are the same once the host bits are cut off. */
  predicate Inside(a: Address, n: Network) {
    a.version == n.version && a.value / Power(n.hostBits) == n.base / Power(n.hostBits)
  }

  /** The members are one block of consecutive addresses of that version, as many as the host bits allow,
      which begins where the base would with its host bits cleared. */
  lemma InsideExactly(a: Address, n: Network)
    ensures var size := Power(n.hostBits);
      var first := n.base / size * size;
      Inside(a, n) <==> a.version == n.version && first <= a.value <= first + size - 1
  {
    hide Power;
    QuotientIs(a.value, n.base / Power(n.hostBits), Power(n.hostBits));
  }

  /** 10.0.0.0/8 is 10.0.0.0 up to 10.255.255.255, and no address of version 6. */
  lemma SlashEight(a: Address)
    ensures Inside(a, Network(4, 0x0A00_0001, 24)) <==> a.version == 4 && 0x0A00_0000 <= a.value <= 0x0AFF_FFFF
  {
    assert Power(8) == 256 && Power(16) == 65536 && Power(24) == 0x100_0000;
    hide Power;
    InsideExactly(a, Network(4, 0x0A00_0001, 24));
  }

  lemma QuotientIs(v: int, q: int, size: int)
    requires size > 0
    ensures q * size <= v <= q * size + size - 1 <==> v / size == q
  {
    var p := v / size;
    assert v == p * size + v % size;
    if q * size <= v <= q * size + size - 1 {
      assert (p - q) * size == v - v % size - q * size;
      Apart(p, q, size);
      Apart(q, p, size);
    }
  }

  lemma Apart(p: int, q: int, size: int)
    requires size > 0
    ensures p > q ==> p * size >= q * size + size
  {
    if p > q {
      var k: nat := p - q - 1;
      assert p * size == q * size + size + k * size;
      NoLess(k, size);
    }
  }

  lemma NoLess(k: nat, size: int)
    requires size > 0
    ensures k * size >= 0
  {
  }

  // ---------------------------------------------------------------- text

  /** split(","): always at least one piece. */
  function Split(s: string): (pieces: seq<string>)
    ensures pieces != []
  {
    if s == [] then [[]]
    else
      var rest := Split(s[1..]);
      if s[0] == ',' then [[]] + rest else [[s[0]] + rest[0]] + rest[1..]
  }

  /** The stripped, non-blank pieces. */
  function Stripped(lib: Library, pieces: seq<string>): seq<string> {
    if pieces == [] then []
    else (if Strip(lib.space, pieces[0]) == [] then [] else [Strip(lib.space, pieces[0])]) + Stripped(lib, pieces[1..])
  }

  function Hops(lib: Library, header: string): seq<string> { Stripped(lib, Split(header)) }

  lemma SplitCons(c: char, s: string)
    ensures Split([c] + s) == (if c == ',' then [[]] + Split(s) else [[c] + Split(s)[0]] + Split(s)[1..])
  {
    assert ([c] + s)[1..] == s;
  }

  lemma {:induction false} SplitAtComma(a: string, b: string)
    ensures Split(a + "," + b) == Split(a) + Split(b)
    decreases |a|, 1
  {
    if a == [] {
      assert a + "," + b == [','] + b;
      assert Split(a) == [[]];
      SplitCons(',', b);
    } else {
      SplitBehind(a[0], a[1..], b);
      assert a == [a[0]] + a[1..];
    }
  }

  lemma SplitBehind(c: char, a: string, b: string)
    ensures Split([c] + a + "," + b) == Split([c] + a) + Split(b)
    decreases |a| + 1, 0
  {
    hide Split;
    SplitAtComma(a, b);
    SplitCons(c, a + "," + b);
    SplitCons(c, a);
    assert [c] + a + "," + b == [c] + (a + "," + b);
    Regrouped([[]], Split(a), Split(b));
    FirstLonger(c, Split(a), Split(b));
  }

  lemma Regrouped(x: seq<string>, y: seq<string>, z: seq<string>)
    ensures x + (y + z) == (x + y) + z
  {
  }

  lemma FirstLonger(c: char, y: seq<string>, z: seq<string>)
    requires y != []
    ensures [[c] + (y + z)[0]] + (y + z)[1..] == ([[c] + y[0]] + y[1..]) + z
  {
    assert (y + z)[1..] == y[1..] + z;
  }

  lemma {:induction false} StrippedAppend(lib: Library, a: seq<string>, b: seq<string>)
    ensures Stripped(lib, a + b) == Stripped(lib, a) + Stripped(lib, b)
    decreases |a|
  {
    hide Strip;
    if a == [] {
      assert a + b == b;
    } else {
      StrippedAppend(lib, a[1..], b);
      assert (a + b)[1..] == a[1..] + b;
    }
  }

  lemma HopsAtComma(lib: Library, a: string, b: string)
    ensures Hops(lib, a + "," + b) == Hops(lib, a) + Hops(lib, b)
  {
    SplitAtComma(a, b);
    StrippedAppend(lib, Split(a), Split(b));
  }

  lemma {:induction false} NoComma(s: string)
    requires ',' !in s
    ensures Split(s) == [s]
  {
    if s != [] {
      assert s[0] in s;
      NoComma(s[1..]);
      assert s == [s[0]] + s[1..];
      SplitCons(s[0], s[1..]);
    }
  }

  // ---------------------------------------------------------------- trust

  function ParseIp(lib: Library, text: string): Option<Address> { lib.address(Strip(lib.space, text)) }

  /** A configured entry that names a network. */
  function Entry(lib: Library, raw: string): Option<Network> {
    if Strip(lib.space, raw) == [] then None else lib.network(Strip(lib.space, raw))
  }

  /** The networks the configuration names: blanks and malformed entries name none. */
  function Configured(lib: Library, proxies: seq<string>): set<Network> {
    set p | p in proxies && Entry(lib, p).Some? :: Entry(lib, p).value
  }

  lemma ConfiguredStep(lib: Library, proxies: seq<string>, p: string)
    ensures Configured(lib, proxies + [p])
      == Configured(lib, proxies) + (if Entry(lib, p).Some? then {Entry(lib, p).value} else {})
  {
    hide Entry;
    forall n | n in Configured(lib, proxies) ensures n in Configured(lib, proxies + [p]) {
      var q :| q in proxies && Entry(lib, q).Some? && Entry(lib, q).value == n;
      assert q in proxies + [p];
    }
    assert p in proxies + [p];
  }

  method TrustedNetworks(lib: Library, proxies: seq<string>) returns (networks: seq<Network>)
    ensures forall n :: n in networks <==> n in Configured(lib, proxies)
  {
    networks := [];
    for i := 0 to |proxies|
      invariant forall n :: n in networks <==> n in Configured(lib, proxies[..i])
    {
      assert proxies[..i + 1] == proxies[..i] + [proxies[i]];
      ConfiguredStep(lib, proxies[..i], proxies[i]);
      var raw := Strip(lib.space, proxies[i]);
      if raw == [] {
        continue;
      }
      var network := lib.network(raw);
      if network.None? {
        continue;
      }
      networks := networks + [network.value];
    }
    assert proxies[..|proxies|] == proxies;
  }

  /** The address is in one of the networks. */
  predicate Trusted(lib: Library, text: string, networks: set<Network>) {
    ParseIp(lib, text).Some? && exists n :: n in networks && Inside(ParseIp(lib, text).value, n)
  }

  /** A well-formed address outside every trusted network. */
  predicate Foreign(lib: Library, text: string, networks: set<Network>) {
    ParseIp(lib, text).Some? && !Trusted(lib, text, networks)
  }

  method IsTrusted(lib: Library, text: string, networks: seq<Network>) returns (trusted: bool)
    ensures trusted <==> Trusted(lib, text, set n | n in networks)
  {
    var address := ParseIp(lib, text);
    if address.None? {
      return false;
    }
    for i := 0 to |networks|
      invariant forall k :: 0 <= k < i ==> !Inside(address.value, networks[k])
    {
      if Inside(address.value, networks[i]) {
        return true;
      }
    }
    return false;
  }

  // ---------------------------------------------------------------- the choice

  /** Reading left to right, the last foreign hop seen. */
  function LastForeign(lib: Library, hops: seq<string>, networks: set<Network>): Option<string> {
    if hops == [] then None
    else
      var later := LastForeign(lib, hops[1..], networks);
      if later.Some? then later else if Foreign(lib, hops[0], networks) then Some(hops[0]) else None
  }

  /** What the policy promises, for the direct peer and the header text. */
  function Resolved(lib: Library, proxies: seq<string>, peer: string, header: string): string {
    var networks := Configured(lib, proxies);
    var hop := LastForeign(lib, Hops(lib, header), networks);
    if Trusted(lib, peer, networks) && hop.Some? then hop.value else peer
  }

  lemma {:induction false} LastForeignIsRightmost(lib: Library, hops: seq<string>, networks: set<Network>)
    ensures LastForeign(lib, hops, networks).None? <==> forall i :: 0 <= i < |hops| ==> !Foreign(lib, hops[i], networks)
    ensures forall hop :: LastForeign(lib, hops, networks) == Some(hop) <==> HasRightmost(lib, hops, networks, hop)
  {
    hide Foreign;
    if hops != [] {
      var rest := hops[1..];
      LastForeignIsRightmost(lib, rest, networks);
      forall hop ensures LastForeign(lib, hops, networks) == Some(hop) <==> HasRightmost(lib, hops, networks, hop) {
        if i :| RightmostAt(lib, rest, networks, hop, i) {
          assert RightmostAt(lib, hops, networks, hop, i + 1);
        }
        if i :| RightmostAt(lib, hops, networks, hop, i) {
          if i > 0 {
            assert RightmostAt(lib, rest, networks, hop, i - 1);
          } else {
            assert forall j :: 0 <= j < |rest| ==> rest[j] == hops[j + 1];
          }
        }
        if LastForeign(lib, rest, networks).None? && Foreign(lib, hops[0], networks) && hop == hops[0] {
          assert forall j :: 0 < j < |hops| ==> hops[j] == rest[j - 1];
          assert RightmostAt(lib, hops, networks, hop, 0);
        }
      }
    }
  }

  /** Position i holds the hop, it is foreign, and nothing to its right is. */
  ghost predicate RightmostAt(lib: Library, hops: seq<string>, networks: set<Network>, hop: string, i: int) {
    && 0 <= i < |hops| && hops[i] == hop && Foreign(lib, hop, networks)
    && forall j :: i < j < |hops| ==> !Foreign(lib, hops[j], networks)
  }

  ghost predicate HasRightmost(lib: Library, hops: seq<string>, networks: set<Network>, hop: string) {
    exists i :: RightmostAt(lib, hops, networks, hop, i)
  }

  lemma {:induction false} LastForeignAppend(lib: Library, a: seq<string>, b: seq<string>, networks: set<Network>)
    ensures LastForeign(lib, a + b, networks)
      == (if LastForeign(lib, b, networks).Some? then LastForeign(lib, b, networks) else LastForeign(lib, a, networks))
    decreases |a|
  {
    hide Foreign;
    if a == [] {
      assert a + b == b;
    } else {
      LastForeignAppend(lib, a[1..], b, networks);
      assert (a + b)[1..] == a[1..] + b;
    }
  }

  lemma LastForeignOne(lib: Library, hop: string, networks: set<Network>)
    ensures LastForeign(lib, [hop], networks) == if Foreign(lib, hop, networks) then Some(hop) else None
  {
    assert [hop][1..] == [];
  }

  /** The walk from the right: the early returns of the original, each with the promised answer. */
  method Resolve(lib: Library, proxies: seq<string>, client: Option<string>, header: Option<string>)
    returns (ip: string)
    ensures ip == Resolved(lib, proxies, OrElse(client, "unknown"), OrElse(header, ""))
  {
    hide Hops, Strip;
    var peer := OrElse(client, "unknown");
    if proxies == [] {
      return peer;
    }
    var list := TrustedNetworks(lib, proxies);
    ghost var networks := Configured(lib, proxies);
    assert networks == set n | n in list;
    var trusted := IsTrusted(lib, peer, list);
    if list == [] || !trusted {
      return peer;
    }
    var hops := Hops(lib, OrElse(header, ""));
    if hops == [] {
      return peer;
    }
    var i := |hops|;
    assert hops[..i] == hops;
    while i > 0
      invariant 0 <= i <= |hops|
      invariant LastForeign(lib, hops, networks) == LastForeign(lib, hops[..i], networks)
    {
      i := i - 1;
      assert hops[..i + 1] == hops[..i] + [hops[i]];
      LastForeignAppend(lib, hops[..i], [hops[i]], networks);
      LastForeignOne(lib, hops[i], networks);
      if ParseIp(lib, hops[i]).None? {
        continue;
      }
      var known := IsTrusted(lib, hops[i], list);
      if !known {
        return hops[i];
      }
    }
    return peer;
  }

  // ---------------------------------------------------------------- what the walk promises

  /** The answer is the direct peer, or a well-formed address outside every trusted network: never a
      malformed hop and never one of the deployment's own proxies. Behind an untrusted peer the header
      is irrelevant. */
  lemma PeerOrForeign(lib: Library, proxies: seq<string>, peer: string, header: string)
    ensures !Trusted(lib, peer, Configured(lib, proxies)) ==> Resolved(lib, proxies, peer, header) == peer
    ensures var ip := Resolved(lib, proxies, peer, header);
      ip == peer || (Foreign(lib, ip, Configured(lib, proxies)) && ip in Hops(lib, header))
  {
    var hops, networks := Hops(lib, header), Configured(lib, proxies);
    LastForeignIsRightmost(lib, hops, networks);
    var hop := LastForeign(lib, hops, networks);
    if hop.Some? {
      var i :| RightmostAt(lib, hops, networks, hop.value, i);
    }
  }

  /** A configured entry names a network that holds the address written here. */
  ghost predicate Proxy(lib: Library, proxies: seq<string>, text: string) {
    && lib.address(Strip(lib.space, text)).Some?
    && exists p :: p in proxies && Strip(lib.space, p) != "" && lib.network(Strip(lib.space, p)).Some?
                   && Inside(lib.address(Strip(lib.space, text)).value, lib.network(Strip(lib.space, p)).value)
  }

  /** From this position on, the first hop is an address that belongs to no proxy and the others are
      proxies or no addresses. */
  ghost predicate LastOutside(lib: Library, proxies: seq<string>, hops: seq<string>, i: int) {
    && 0 <= i < |hops| && lib.address(Strip(lib.space, hops[i])).Some? && !Proxy(lib, proxies, hops[i])
    && forall j :: i < j < |hops| ==> lib.address(Strip(lib.space, hops[j])).None? || Proxy(lib, proxies, hops[j])
  }

  lemma TrustedIsProxy(lib: Library, proxies: seq<string>, text: string)
    ensures Trusted(lib, text, Configured(lib, proxies)) <==> Proxy(lib, proxies, text)
  {
    hide Inside, Strip;
    var networks := Configured(lib, proxies);
    if Proxy(lib, proxies, text) {
      var p :| p in proxies && Strip(lib.space, p) != "" && lib.network(Strip(lib.space, p)).Some?
               && Inside(lib.address(Strip(lib.space, text)).value, lib.network(Strip(lib.space, p)).value);
      assert Entry(lib, p).Some? && Entry(lib, p).value in networks;
    }
    if Trusted(lib, text, networks) {
      var n :| n in networks && Inside(ParseIp(lib, text).value, n);
      var p :| p in proxies && Entry(lib, p).Some? && Entry(lib, p).value == n;
      assert lib.network(Strip(lib.space, p)).value == n;
    }
  }

  /** The whole policy: behind a proxy of the deployment the answer is the last hop that is an address and
      no proxy, if the header names one, and in every other case the direct peer. */
  lemma AnsweredExactly(lib: Library, proxies: seq<string>, peer: string, header: string, ip: string)
    ensures Resolved(lib, proxies, peer, header) == ip
      <==> if Proxy(lib, proxies, peer) && exists i :: LastOutside(lib, proxies, Hops(lib, header), i)
           then exists i :: LastOutside(lib, proxies, Hops(lib, header), i) && ip == Hops(lib, header)[i]
           else ip == peer
  {
    hide Proxy, Trusted, Configured, Hops, Strip;
    var hops, networks := Hops(lib, header), Configured(lib, proxies);
    TrustedIsProxy(lib, proxies, peer);
    LastForeignIsRightmost(lib, hops, networks);
    forall i ensures LastOutside(lib, proxies, hops, i)
                     <==> 0 <= i < |hops| && RightmostAt(lib, hops, networks, hops[i], i) {
      SamePlace(lib, proxies, hops, i);
    }
    var hop := LastForeign(lib, hops, networks);
    if hop.Some? {
      assert HasRightmost(lib, hops, networks, hop.value);
      var i :| RightmostAt(lib, hops, networks, hop.value, i);
      assert LastOutside(lib, proxies, hops, i);
    }
    if i :| LastOutside(lib, proxies, hops, i) {
      assert RightmostAt(lib, hops, networks, hops[i], i);
      assert HasRightmost(lib, hops, networks, hops[i]);
    }
  }

  lemma SamePlace(lib: Library, proxies: seq<string>, hops: seq<string>, i: int)
    ensures LastOutside(lib, proxies, hops, i)
      <==> 0 <= i < |hops| && RightmostAt(lib, hops, Configured(lib, proxies), hops[i], i)
  {
    hide Proxy, Trusted, Configured, Strip;
    forall j | 0 <= j < |hops|
      ensures Trusted(lib, hops[j], Configured(lib, proxies)) <==> Proxy(lib, proxies, hops[j])
    {
      TrustedIsProxy(lib, proxies, hops[j]);
    }
  }

  /** Whatever is written to the left of a header that names a foreign hop changes nothing; to the left
      of one that names none, a foreign address behind a trusted peer is believed. */
  lemma Prepended(lib: Library, proxies: seq<string>, peer: string, text: string, header: string)
    ensures var networks := Configured(lib, proxies);
      var before, after := Resolved(lib, proxies, peer, header), Resolved(lib, proxies, peer, text + "," + header);
      if LastForeign(lib, Hops(lib, header), networks).Some? then after == before
      else after == Resolved(lib, proxies, peer, text)
  {
    HopsAtComma(lib, text, header);
    LastForeignAppend(lib, Hops(lib, text), Hops(lib, header), Configured(lib, proxies));
  }

  /** Trusted or malformed hops on the right change nothing. */
  lemma Appended(lib: Library, proxies: seq<string>, peer: string, header: string, suffix: string)
    requires forall hop :: hop in Hops(lib, suffix) ==> !Foreign(lib, hop, Configured(lib, proxies))
    ensures Resolved(lib, proxies, peer, header + "," + suffix) == Resolved(lib, proxies, peer, header)
  {
    var networks := Configured(lib, proxies);
    HopsAtComma(lib, header, suffix);
    LastForeignAppend(lib, Hops(lib, header), Hops(lib, suffix), networks);
    LastForeignIsRightmost(lib, Hops(lib, suffix), networks);
  }

  /** No prefix of any kind can move the answer exactly when the peer is not trusted or the header
      already names a foreign hop, as soon as some foreign address other than the peer can be written. */
  lemma SpoofProofExactly(lib: Library, proxies: seq<string>, peer: string, header: string, other: string)
    requires ',' !in other && Strip(lib.space, other) != [] && Strip(lib.space, other) != peer
    requires Foreign(lib, Strip(lib.space, other), Configured(lib, proxies))
    ensures (forall text :: Resolved(lib, proxies, peer, text + "," + header) == Resolved(lib, proxies, peer, header))
      <==> (!Trusted(lib, peer, Configured(lib, proxies))
            || exists i :: 0 <= i < |Hops(lib, header)| && Foreign(lib, Hops(lib, header)[i], Configured(lib, proxies)))
  {
    hide Trusted, Foreign, Hops, Strip;
    var networks := Configured(lib, proxies);
    LastForeignIsRightmost(lib, Hops(lib, header), networks);
    forall text ensures LastForeign(lib, Hops(lib, header), networks).Some?
                        ==> Resolved(lib, proxies, peer, text + "," + header) == Resolved(lib, proxies, peer, header) {
      Prepended(lib, proxies, peer, text, header);
    }
    Prepended(lib, proxies, peer, other, header);
    OneHop(lib, other);
    assert LastForeign(lib, [Strip(lib.space, other)], networks) == Some(Strip(lib.space, other));
  }

  lemma OneHop(lib: Library, text: string)
    requires ',' !in text
    ensures Hops(lib, text) == if Strip(lib.space, text) == [] then [] else [Strip(lib.space, text)]
  {
    NoComma(text);
    assert [text][1..] == [];
    assert Stripped(lib, [text]) == (if Strip(lib.space, text) == [] then [] else [Strip(lib.space, text)])
                                    + Stripped(lib, []);
  }

  /** Only the networks the configuration names matter: order, repeats, blanks and malformed entries
      do not. */
  lemma BadEntriesIgnored(lib: Library, good: seq<string>, bad: seq<string>, peer: string, header: string)
    requires forall p :: p in bad ==> Entry(lib, p).None? || p in good
    ensures Resolved(lib, good + bad, peer, header) == Resolved(lib, bad + good, peer, header)
    ensures Resolved(lib, good + bad, peer, header) == Resolved(lib, good, peer, header)
  {
    assert Configured(lib, good + bad) == Configured(lib, good);
    assert Configured(lib, bad + good) == Configured(lib, good);
  }
}
