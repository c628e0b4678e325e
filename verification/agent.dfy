/** Address resolution through the guest agent: `getVMIP` and `extractIP`
    with the decoded `QemuAgentCommandResponse`. */
module Agent {
  import opened Wrappers
  import opened Subprocess
  import opened Domain

  type Bytes = seq<bv8>

  /** The fixed request sent over the guest-agent channel. */
  const InterfacesRequest: string := "{\"execute\":\"guest-network-get-interfaces\"}"

  /* The decoded guest-agent reply, field for field. */

  datatype IpAddress = IpAddress(ipAddressType: string, ipAddress: string, prefix: int)

  datatype Statistics = Statistics(
    txPackets: int, txErrs: int, rxBytes: int, rxDropped: int,
    rxPackets: int, rxErrs: int, txBytes: int, txDropped: int)

  datatype NetInterface = NetInterface(
    name: string,
    ipAddresses: seq<IpAddress>,
    statistics: Statistics,
    hardwareAddress: string)

  datatype Response = Response(ret: seq<NetInterface>)

  /** The collaborators the parser calls but does not implement. */
  datatype Env = Env(
    agent: (string, string) -> Exec<Bytes>,  // `virsh qemu-agent-command <domain> <request>`
    decode: Bytes -> Option<Response>,       // `json.Unmarshal` into a Response; None on error
    parseAddr: string -> Option<Addr>)       // `netip.ParseAddr`; None on error

  /** The `ip-address` strings of one interface, in order. */
  function EntryTexts(entries: seq<IpAddress>): (r: seq<string>)
    ensures |r| == |entries|
  {
    seq(|entries|, k requires 0 <= k < |entries| => entries[k].ipAddress)
  }

  /** Every `ip-address` string of the reply: interface by interface, and
      within an interface entry by entry. */
  function AddressTexts(ifaces: seq<NetInterface>): seq<string>
    decreases |ifaces|
  {
    if |ifaces| == 0 then []
    else AddressTexts(ifaces[..|ifaces| - 1]) + EntryTexts(ifaces[|ifaces| - 1].ipAddresses)
  }

  /** The texts that parse as addresses, parsed, in their original order;
      the others are dropped. */
  function KeepParsed(texts: seq<string>, parse: string -> Option<Addr>): (r: seq<Addr>)
    ensures |r| <= |texts|
    ensures forall a :: a in r ==> exists k :: 0 <= k < |texts| && parse(texts[k]) == Some(a)
    decreases |texts|
  {
    if |texts| == 0 then []
    else
      var init := KeepParsed(texts[..|texts| - 1], parse);
      match parse(texts[|texts| - 1])
      case Some(a) => init + [a]
      case None => init
  }

  /** The addresses a decoded reply yields. */
  function ResponseAddresses(resp: Response, parse: string -> Option<Addr>): seq<Addr> {
    KeepParsed(AddressTexts(resp.ret), parse)
  }

  /** The addresses the raw agent output yields: none when it does not decode. */
  function DecodeAddresses(output: Bytes, env: Env): (r: seq<Addr>)
    ensures env.decode(output).None? ==> r == []
    ensures env.decode(output).Some? ==>
      var texts := AddressTexts(env.decode(output).value.ret);
      forall a :: a in r ==> exists k :: 0 <= k < |texts| && env.parseAddr(texts[k]) == Some(a)
  {
    match env.decode(output)
    case None => []
    case Some(resp) =>
      assert env.decode(output).value == resp;
      assert AddressTexts(env.decode(output).value.ret) == AddressTexts(resp.ret);
      KeepParsed(AddressTexts(resp.ret), env.parseAddr)
  }

  /** `extractIP`: decode the reply, then walk every interface and every
      entry, keeping each `ip-address` that parses. */
  method ExtractIP(output: Bytes, env: Env) returns (ips: seq<Addr>)
    ensures env.decode(output).None? ==> ips == []
    ensures env.decode(output).Some? ==>
      ips == KeepParsed(AddressTexts(env.decode(output).value.ret), env.parseAddr)
  {
    var response := env.decode(output);
    if response.None? {
      return [];
    }
    var ifaces := response.value.ret;
    ips := [];
    var i := 0;
    while i < |ifaces|
      invariant 0 <= i <= |ifaces|
      invariant ips == KeepParsed(AddressTexts(ifaces[..i]), env.parseAddr)
    {
      var entries := ifaces[i].ipAddresses;
      ghost var done := AddressTexts(ifaces[..i]);
      var j := 0;
      assert done + EntryTexts(entries[..0]) == done;
      while j < |entries|
        invariant 0 <= j <= |entries|
        invariant ips == KeepParsed(done + EntryTexts(entries[..j]), env.parseAddr)
      {
        var addr := env.parseAddr(entries[j].ipAddress);
        EntryTextsSnoc(entries, j);
        KeepParsedSnoc(done + EntryTexts(entries[..j]), entries[j].ipAddress, env.parseAddr);
        assert done + EntryTexts(entries[..j + 1]) == (done + EntryTexts(entries[..j])) + [entries[j].ipAddress];
        if addr.Some? {
          ips := ips + [addr.value];
        }
        j := j + 1;
      }
      assert entries[..j] == entries;
      AddressTextsSnoc(ifaces, i);
      i := i + 1;
    }
    assert ifaces[..i] == ifaces;
  }

  lemma EntryTextsSnoc(entries: seq<IpAddress>, j: nat)
    requires j < |entries|
    ensures EntryTexts(entries[..j + 1]) == EntryTexts(entries[..j]) + [entries[j].ipAddress]
  {
  }

  lemma KeepParsedSnoc(texts: seq<string>, t: string, parse: string -> Option<Addr>)
    ensures KeepParsed(texts + [t], parse)
         == KeepParsed(texts, parse) + (if parse(t).Some? then [parse(t).value] else [])
  {
    assert (texts + [t])[..|texts|] == texts;
  }

  lemma AddressTextsSnoc(ifaces: seq<NetInterface>, i: nat)
    requires i < |ifaces|
    ensures AddressTexts(ifaces[..i + 1])
         == AddressTexts(ifaces[..i]) + EntryTexts(ifaces[i].ipAddresses)
  {
    assert ifaces[..i + 1][..i] == ifaces[..i];
    assert ifaces[i].ipAddresses[..|ifaces[i].ipAddresses|] == ifaces[i].ipAddresses;
  }

  /** `getVMIP`: re-apply the reserved prefix, ask the guest agent for its
      interfaces, and read the addresses out of the reply; a failed agent
      call yields no addresses. */
  function GetVMIP(vmName: string, env: Env): (r: seq<Addr>)
    ensures env.agent(ReservedPrefix + vmName, InterfacesRequest).Failed? ==> r == []
    ensures env.agent(ReservedPrefix + vmName, InterfacesRequest).Ran? ==>
      r == DecodeAddresses(env.agent(ReservedPrefix + vmName, InterfacesRequest).stdout, env)
  {
    var fullName := ReservedPrefix + vmName;
    match env.agent(fullName, InterfacesRequest)
    case Failed(_) => []
    case Ran(output) => DecodeAddresses(output, env)
  }

  /* ------------------------------------------------------------------ */
  /* Properties                                                          */
  /* ------------------------------------------------------------------ */

  /** Keeping parsed texts distributes over concatenation, so the order of
      the input is the order of the output. */
  lemma {:induction false} KeepParsedAppend(a: seq<string>, b: seq<string>, parse: string -> Option<Addr>)
    ensures KeepParsed(a + b, parse) == KeepParsed(a, parse) + KeepParsed(b, parse)
    decreases |b|
  {
    if |b| == 0 {
      assert a + b == a;
    } else {
      var b' := b[..|b| - 1];
      assert (a + b)[..|a + b| - 1] == a + b';
      assert (a + b)[|a + b| - 1] == b[|b| - 1];
      KeepParsedAppend(a, b', parse);
    }
  }

  /** Every text that parses contributes its address: nothing is filtered
      out beyond parse failures (no loopback filtering). */
  lemma {:induction false} KeepParsedComplete(texts: seq<string>, parse: string -> Option<Addr>, k: nat)
    requires k < |texts| && parse(texts[k]).Some?
    ensures parse(texts[k]).value in KeepParsed(texts, parse)
    decreases |texts|
  {
    if k < |texts| - 1 {
      assert texts[..|texts| - 1][k] == texts[k];
      KeepParsedComplete(texts[..|texts| - 1], parse, k);
    }
  }

  /** When every text parses, the output is the parsed texts one for one:
      no deduplication and no reordering. */
  lemma {:induction false} KeepParsedAllParse(texts: seq<string>, parse: string -> Option<Addr>)
    requires forall k :: 0 <= k < |texts| ==> parse(texts[k]).Some?
    ensures |KeepParsed(texts, parse)| == |texts|
    ensures forall k :: 0 <= k < |texts| ==> KeepParsed(texts, parse)[k] == parse(texts[k]).value
    decreases |texts|
  {
    if |texts| > 0 {
      var init := texts[..|texts| - 1];
      KeepParsedAllParse(init, parse);
      assert forall k :: 0 <= k < |init| ==> init[k] == texts[k];
    }
  }

  /** Interfaces are visited in order: the addresses of a reply are those of
      its first interfaces followed by those of the rest. */
  lemma {:induction false} AddressTextsAppend(xs: seq<NetInterface>, ys: seq<NetInterface>)
    ensures AddressTexts(xs + ys) == AddressTexts(xs) + AddressTexts(ys)
    decreases |ys|
  {
    if |ys| == 0 {
      assert xs + ys == xs;
    } else {
      var ys' := ys[..|ys| - 1];
      assert (xs + ys)[..|xs + ys| - 1] == xs + ys';
      assert (xs + ys)[|xs + ys| - 1] == ys[|ys| - 1];
      AddressTextsAppend(xs, ys');
    }
  }

  /** Interface-then-entry order for the decoded reply. */
  lemma InterfaceOrder(x: NetInterface, rest: seq<NetInterface>, parse: string -> Option<Addr>)
    ensures ResponseAddresses(Response([x] + rest), parse)
         == KeepParsed(EntryTexts(x.ipAddresses), parse) + ResponseAddresses(Response(rest), parse)
  {
    AddressTextsAppend([x], rest);
    assert [x][..0] == [];
    assert AddressTexts([x]) == AddressTexts([]) + EntryTexts(x.ipAddresses);
    assert AddressTexts([x]) == EntryTexts(x.ipAddresses);
    assert Response([x] + rest).ret == [x] + rest;
    assert AddressTexts([x] + rest) == EntryTexts(x.ipAddresses) + AddressTexts(rest);
    KeepParsedAppend(EntryTexts(x.ipAddresses), AddressTexts(rest), parse);
  }
}
