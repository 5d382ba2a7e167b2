/** Which address a request came from (grpcserver/clientip.go): the right-to-left scan of x-forwarded-for. */
module ClientIP {
  import opened Wrappers
  import opened Text

  type Addr = nat
  type Prefix = nat

  /** Address text and subnet membership stay uninterpreted. */
  datatype Net = Net(
    parseAddr: string -> Option<Addr>,
    parsePrefix: string -> Option<Prefix>,
    hostOf: string -> Option<string>,
    unmap: Addr -> Addr,
    host: Addr -> Prefix,
    contains: (Prefix, Addr) -> bool,
    show: Addr -> string)

  /** What the address package promises: the empty text is no address, and a shown address parses back. */
  ghost predicate Lawful(net: Net) {
    && net.parseAddr("") == None
    && (forall a: Addr :: net.parseAddr(net.show(a)) == Some(a))
    && (forall a: Addr :: net.show(a) != "")
    && (forall a: Addr :: net.unmap(net.unmap(a)) == net.unmap(a))
  }

  // ---- Trusted proxies ----

  function ProxyOf(net: Net, value: string): Option<Prefix> {
    match net.parsePrefix(TrimSpace(value))
    case Some(prefix) => Some(prefix)
    case None =>
      match net.parseAddr(TrimSpace(value))
      case Some(address) => Some(net.host(address))
      case None => None
  }

  /** The configured values that are not blank, in order. */
  function Proxies(net: Net, values: seq<string>): seq<Option<Prefix>> {
    if values == [] then []
    else
      var init, last := Proxies(net, values[..|values| - 1]), values[|values| - 1];
      if TrimSpace(last) == "" then init else init + [ProxyOf(net, last)]
  }

  /** One bad value refuses the whole list; otherwise each value that is not blank becomes one prefix. */
  method ParseTrustedProxies(net: Net, values: seq<string>) returns (trusted: Option<seq<Prefix>>)
    ensures trusted.None? <==> exists i :: 0 <= i < |values| && TrimSpace(values[i]) != "" && ProxyOf(net, values[i]) == None
    ensures trusted.Some? ==>
              && |trusted.value| == |Proxies(net, values)|
              && forall i :: 0 <= i < |trusted.value| ==> Proxies(net, values)[i] == Some(trusted.value[i])
  {
    var prefixes := [];
    for i := 0 to |values|
      invariant forall j :: 0 <= j < i ==> TrimSpace(values[j]) == "" || ProxyOf(net, values[j]).Some?
      invariant |prefixes| == |Proxies(net, values[..i])|
      invariant forall j :: 0 <= j < |prefixes| ==> Proxies(net, values[..i])[j] == Some(prefixes[j])
    {
      assert values[..i + 1][..i] == values[..i];
      var value := TrimSpace(values[i]);
      if value == "" {
        continue;
      }
      var prefix := net.parsePrefix(value);
      if prefix.Some? {
        prefixes := prefixes + [prefix.value];
        continue;
      }
      var address := net.parseAddr(value);
      if address.None? {
        return None;
      }
      prefixes := prefixes + [net.host(address.value)];
    }
    assert values[..|values|] == values;
    return Some(prefixes);
  }

  predicate Trust(net: Net, trusted: seq<Prefix>, address: Addr) {
    exists i :: 0 <= i < |trusted| && net.contains(trusted[i], net.unmap(address))
  }

  // ---- The scan ----

  /** A part of the header that names the client: an address that is not a trusted proxy. */
  function HopOf(net: Net, trusted: seq<Prefix>, part: string): Option<Addr> {
    match net.parseAddr(TrimSpace(part))
    case None => None
    case Some(hop) => if Trust(net, trusted, hop) then None else Some(hop)
  }

  /** The rightmost such part. */
  function Rightmost(net: Net, trusted: seq<Prefix>, parts: seq<string>): Option<Addr> {
    if parts == [] then None
    else if HopOf(net, trusted, parts[|parts| - 1]).Some? then HopOf(net, trusted, parts[|parts| - 1])
    else Rightmost(net, trusted, parts[..|parts| - 1])
  }

  function Hop(net: Net, trusted: seq<Prefix>, header: string): Option<Addr> {
    Rightmost(net, trusted, Split(header, ','))
  }

  /** The peer's own address: the host of a host:port, else the whole text. */
  function PeerAddr(net: Net, peer: Option<string>): Option<Addr> {
    match peer
    case None => None
    case Some(raw) =>
      match net.parseAddr(match net.hostOf(raw) case Some(host) => host case None => raw)
      case None => None
      case Some(address) => Some(net.unmap(address))
  }

  /** The first value of the header, if there is any metadata and any value. */
  function Forwarded(metadata: Option<seq<string>>): string {
    if metadata.Some? && |metadata.value| > 0 then metadata.value[0] else ""
  }

  function Client(net: Net, trusted: seq<Prefix>, peer: Option<string>, metadata: Option<seq<string>>): string {
    match PeerAddr(net, peer)
    case None => ""
    case Some(address) =>
      if !Trust(net, trusted, address) || Forwarded(metadata) == "" then net.show(address)
      else
        match Hop(net, trusted, Forwarded(metadata))
        case None => net.show(address)
        case Some(hop) => net.show(net.unmap(hop))
  }

  method ClientIP(net: Net, trusted: seq<Prefix>, peer: Option<string>, metadata: Option<seq<string>>) returns (ip: string)
    ensures ip == Client(net, trusted, peer, metadata)
  {
    var address := PeerAddr(net, peer);
    if address.None? {
      return "";
    }
    if !Trust(net, trusted, address.value) {
      return net.show(address.value);
    }
    if metadata.None? {
      return net.show(address.value);
    }
    var forwarded := if |metadata.value| == 0 then "" else metadata.value[0];
    if forwarded == "" {
      return net.show(address.value);
    }
    var parts := Split(forwarded, ',');
    var i := |parts| - 1;
    assert parts[..|parts|] == parts;
    while i >= 0
      invariant -1 <= i < |parts|
      invariant Rightmost(net, trusted, parts) == Rightmost(net, trusted, parts[..i + 1])
    {
      assert parts[..i + 1][..i] == parts[..i];
      var hop := net.parseAddr(TrimSpace(parts[i]));
      if hop.Some? && !Trust(net, trusted, hop.value) {
        return net.show(net.unmap(hop.value));
      }
      i := i - 1;
    }
    return net.show(address.value);
  }

  function ClientAddr(net: Net, trusted: seq<Prefix>, peer: Option<string>, metadata: Option<seq<string>>): Option<Addr> {
    var raw := Client(net, trusted, peer, metadata);
    if raw == "" then None
    else
      match net.parseAddr(raw)
      case None => None
      case Some(address) => Some(net.unmap(address))
  }

  // ---- What the scan depends on ----

  lemma {:induction false} RightmostOfBoth(net: Net, trusted: seq<Prefix>, left: seq<string>, right: seq<string>)
    ensures Rightmost(net, trusted, left + right) ==
            if Rightmost(net, trusted, right).Some? then Rightmost(net, trusted, right) else Rightmost(net, trusted, left)
    decreases right
  {
    if right == [] {
      assert left + right == left;
    } else {
      assert (left + right)[..|left + right| - 1] == left + right[..|right| - 1];
      RightmostOfBoth(net, trusted, left, right[..|right| - 1]);
    }
  }

  /** What stands to the left of a header matters only when the header itself names no client. */
  lemma HopOfBoth(net: Net, trusted: seq<Prefix>, p: string, h: string)
    ensures Hop(net, trusted, p + "," + h) == if Hop(net, trusted, h).Some? then Hop(net, trusted, h) else Hop(net, trusted, p)
  {
    SplitAround(p, h, ',');
    RightmostOfBoth(net, trusted, Split(p, ','), Split(h, ','));
  }

  /** The scan finds exactly the last part that is an untrusted address. */
  lemma {:induction false} RightmostExact(net: Net, trusted: seq<Prefix>, parts: seq<string>)
    ensures var r := Rightmost(net, trusted, parts);
            && (r.None? <==> forall i :: 0 <= i < |parts| ==> HopOf(net, trusted, parts[i]).None?)
            && (r.Some? ==> exists i :: 0 <= i < |parts| && HopOf(net, trusted, parts[i]) == r
                              && forall j :: i < j < |parts| ==> HopOf(net, trusted, parts[j]).None?)
    decreases parts
  {
    if parts != [] {
      var last := |parts| - 1;
      RightmostExact(net, trusted, parts[..last]);
      if HopOf(net, trusted, parts[last]).None? && Rightmost(net, trusted, parts).Some? {
        var i :| 0 <= i < last && HopOf(net, trusted, parts[..last][i]) == Rightmost(net, trusted, parts)
          && forall j :: i < j < last ==> HopOf(net, trusted, parts[..last][j]).None?;
        assert forall j :: i < j < |parts| ==> HopOf(net, trusted, parts[j]).None? by {
          forall j | i < j < |parts| ensures HopOf(net, trusted, parts[j]).None? {
            if j < last {
              assert parts[..last][j] == parts[j];
            }
          }
        }
      } else if HopOf(net, trusted, parts[last]).Some? {
        assert HopOf(net, trusted, parts[last]) == Rightmost(net, trusted, parts);
      } else {
        forall i | 0 <= i < |parts| ensures HopOf(net, trusted, parts[i]).None? {
          if i < last {
            assert parts[..last][i] == parts[i];
          }
        }
      }
    }
  }

  /** A spoofed left end changes nothing: if h names a client, so does p + "," + h, and the same one, for every p. */
  lemma SpoofedPrefixIgnored(net: Net, trusted: seq<Prefix>, peer: Option<string>, p: string, h: string)
    requires Lawful(net) && Hop(net, trusted, h).Some?
    ensures Client(net, trusted, peer, Some([p + "," + h])) == Client(net, trusted, peer, Some([h]))
  {
    HopOfBoth(net, trusted, p, h);
    if h == "" {
      assert TrimSpace("") == "";
      assert Rightmost(net, trusted, [""]) == None by {
        RightmostExact(net, trusted, [""]);
      }
    }
  }

  /** Hops appended by trusted proxies, or unreadable ones, change nothing either. */
  lemma TrustedSuffixIgnored(net: Net, trusted: seq<Prefix>, peer: Option<string>, h: string, q: string)
    requires Lawful(net) && Hop(net, trusted, q).None?
    ensures Client(net, trusted, peer, Some([h + "," + q])) == Client(net, trusted, peer, Some([h]))
  {
    HopOfBoth(net, trusted, h, q);
    if h == "" {
      assert TrimSpace("") == "";
      assert Rightmost(net, trusted, [""]) == None by {
        RightmostExact(net, trusted, [""]);
      }
    }
  }

  /** The header of an untrusted peer is not looked at. */
  lemma UntrustedPeerDecides(net: Net, trusted: seq<Prefix>, peer: Option<string>, m: Option<seq<string>>, n: Option<seq<string>>)
    requires PeerAddr(net, peer).Some? ==> !Trust(net, trusted, PeerAddr(net, peer).value)
    ensures Client(net, trusted, peer, m) == Client(net, trusted, peer, n)
  {
  }

  /** The address form is the unmapped address behind the text, and absent only without a usable peer. */
  lemma ClientAddrAgrees(net: Net, trusted: seq<Prefix>, peer: Option<string>, metadata: Option<seq<string>>)
    requires Lawful(net)
    ensures ClientAddr(net, trusted, peer, metadata).None? <==> PeerAddr(net, peer).None?
    ensures var a := ClientAddr(net, trusted, peer, metadata);
            a.Some? ==> net.show(a.value) == Client(net, trusted, peer, metadata) && net.unmap(a.value) == a.value
  {
  }

  // ---- The answer itself ----

  /** The peer's text is an address, or the host of its host:port is. */
  predicate PeerIs(net: Net, peer: Option<string>, p: Addr) {
    peer.Some? &&
    match net.hostOf(peer.value)
    case Some(host) => net.parseAddr(host) == Some(p)
    case None => net.parseAddr(peer.value) == Some(p)
  }

  predicate Contained(net: Net, trusted: seq<Prefix>, a: Addr) {
    exists k :: 0 <= k < |trusted| && net.contains(trusted[k], net.unmap(a))
  }

  /** The i-th part of the header, the white space around it left aside. */
  ghost predicate PartIs(header: string, i: nat, text: string) {
    exists left, right ::
      && AllSpace(left) && AllSpace(right) && Tight(text)
      && i < |Split(header, ',')| && Split(header, ',')[i] == left + text + right
  }

  /** The i-th part is an address that no trusted prefix contains. */
  ghost predicate Names(net: Net, trusted: seq<Prefix>, header: string, i: nat, a: Addr) {
    exists text :: PartIs(header, i, text) && net.parseAddr(text) == Some(a) && !Contained(net, trusted, a)
  }

  lemma PartTrimmed(header: string, i: nat, text: string)
    ensures PartIs(header, i, text) <==> i < |Split(header, ',')| && TrimSpace(Split(header, ',')[i]) == text
  {
    if i < |Split(header, ',')| {
      var left, right := TrimSpaceSplits(Split(header, ',')[i]);
      assert PartIs(header, i, TrimSpace(Split(header, ',')[i]));
      forall l, r | AllSpace(l) && AllSpace(r) && Tight(text) && Split(header, ',')[i] == l + text + r
        ensures TrimSpace(Split(header, ',')[i]) == text
      {
        TrimSpaceIs(l, text, r);
      }
    }
  }

  lemma NamesHop(net: Net, trusted: seq<Prefix>, header: string, i: nat, a: Addr)
    requires i < |Split(header, ',')|
    ensures Names(net, trusted, header, i, a) <==> HopOf(net, trusted, Split(header, ',')[i]) == Some(a)
  {
    var text := TrimSpace(Split(header, ',')[i]);
    PartTrimmed(header, i, text);
    forall other | PartIs(header, i, other) ensures other == text {
      PartTrimmed(header, i, other);
    }
  }

  /** Behind a trusted peer the rightmost part that names an untrusted address is the client, unmapped... */
  lemma AnswerIsHop(net: Net, trusted: seq<Prefix>, peer: Option<string>, p: Addr, values: seq<string>, i: nat, a: Addr)
    requires PeerIs(net, peer, p) && Contained(net, trusted, net.unmap(p)) && |values| > 0 && values[0] != ""
    requires Names(net, trusted, values[0], i, a)
    requires forall j, b :: i < j < |Split(values[0], ',')| ==> !Names(net, trusted, values[0], j, b)
    ensures Client(net, trusted, peer, Some(values)) == net.show(net.unmap(a))
  {
    var parts := Split(values[0], ',');
    assert i < |parts|;
    NamesHop(net, trusted, values[0], i, a);
    forall j | i < j < |parts| ensures HopOf(net, trusted, parts[j]).None? {
      if HopOf(net, trusted, parts[j]).Some? {
        NamesHop(net, trusted, values[0], j, HopOf(net, trusted, parts[j]).value);
      }
    }
    RightmostIs(net, trusted, parts, i, a);
  }

  lemma RightmostIs(net: Net, trusted: seq<Prefix>, parts: seq<string>, i: nat, a: Addr)
    requires i < |parts| && HopOf(net, trusted, parts[i]) == Some(a)
    requires forall j :: i < j < |parts| ==> HopOf(net, trusted, parts[j]).None?
    ensures Rightmost(net, trusted, parts) == Some(a)
  {
    RightmostExact(net, trusted, parts);
  }

  /** ... and when no part names one, or there is no header, it is the peer itself. */
  lemma AnswerIsPeer(net: Net, trusted: seq<Prefix>, peer: Option<string>, p: Addr, metadata: Option<seq<string>>)
    requires PeerIs(net, peer, p)
    requires || !Contained(net, trusted, net.unmap(p))
             || metadata.None? || metadata.value == [] || metadata.value[0] == ""
             || forall j, b :: 0 <= j < |Split(metadata.value[0], ',')| ==> !Names(net, trusted, metadata.value[0], j, b)
    ensures Client(net, trusted, peer, metadata) == net.show(net.unmap(p))
  {
    if metadata.Some? && metadata.value != [] {
      var parts := Split(metadata.value[0], ',');
      RightmostExact(net, trusted, parts);
      if i :| 0 <= i < |parts| && HopOf(net, trusted, parts[i]).Some? {
        NamesHop(net, trusted, metadata.value[0], i, HopOf(net, trusted, parts[i]).value);
      }
    }
  }

  /** Without a usable peer there is no answer. */
  lemma NoAnswer(net: Net, trusted: seq<Prefix>, peer: Option<string>, metadata: Option<seq<string>>)
    requires forall p :: !PeerIs(net, peer, p)
    ensures Client(net, trusted, peer, metadata) == ""
  {
    if PeerAddr(net, peer).Some? {
      var raw := peer.value;
      var p := net.parseAddr(match net.hostOf(raw) case Some(host) => host case None => raw).value;
      assert PeerIs(net, peer, p);
    }
  }

  /** How many of the values are not blank. */
  function NotBlank(values: seq<string>): nat {
    if values == [] then 0
    else NotBlank(values[..|values| - 1]) + if TrimSpace(values[|values| - 1]) == "" then 0 else 1
  }

  /** Each value that is not blank has its own place: the subnet it reads as, else the single host it reads as. */
  lemma {:induction false} ProxyAt(net: Net, values: seq<string>, i: nat)
    requires i < |values| && TrimSpace(values[i]) != ""
    ensures var text := TrimSpace(values[i]);
            var at := NotBlank(values[..i]);
            && |Proxies(net, values)| == NotBlank(values) && at < |Proxies(net, values)|
            && (net.parsePrefix(text).Some? ==> Proxies(net, values)[at] == net.parsePrefix(text))
            && (net.parsePrefix(text).None? && net.parseAddr(text).Some? ==>
                  Proxies(net, values)[at] == Some(net.host(net.parseAddr(text).value)))
            && (net.parsePrefix(text).None? && net.parseAddr(text).None? ==> Proxies(net, values)[at] == None)
    decreases values
  {
    var init := values[..|values| - 1];
    ProxyCount(net, values);
    ProxyCount(net, init);
    if i < |init| {
      ProxyAt(net, init, i);
      assert init[..i] == values[..i];
    } else {
      assert init == values[..i];
    }
  }

  lemma {:induction false} ProxyCount(net: Net, values: seq<string>)
    ensures |Proxies(net, values)| == NotBlank(values)
    decreases values
  {
    if values != [] {
      ProxyCount(net, values[..|values| - 1]);
    }
  }
}
