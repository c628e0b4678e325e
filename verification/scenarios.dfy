/** Concrete listings and agent replies, worked through the model. */
module Scenarios {
  import opened Wrappers
  import opened Subprocess
  import opened GoStrings
  import opened Domain
  import opened Agent
  import opened Command

  /* ------------------------------------------------------------------ */
  /* The state classifier on literal tokens                              */
  /* ------------------------------------------------------------------ */

  /** A token without white space is classified by its lower-case form. */
  lemma WordToken(token: string, lower: string)
    requires NoSpace(token) && ToLower(token) == lower
    ensures ParseStatus(token) == Classify(lower)
  {
  }

  /** Tokens are compared lower-cased... */
  lemma UpperCaseToken()
    ensures ParseStatus("RUNNING") == Ok(Running)
  {
    WordToken("RUNNING", "running");
  }

  /** ...and trimmed, so the two-word token "shut off" is known. */
  lemma PaddedToken()
    ensures ParseStatus(" Shut Off ") == Ok(Stopped)
  {
    TrimSpacePadded(" ", "Shut Off", " ");
    assert " " + "Shut Off" + " " == " Shut Off ";
    assert ToLower("Shut Off") == "shut off";
  }

  lemma RunningToken()
    ensures ParseStatus("running") == Ok(Running)
  {
    WordToken("running", "running");
  }

  lemma ShutToken()
    ensures ParseStatus("shut") == Ok(Stopped)
  {
    WordToken("shut", "shut");
  }

  /** An unknown token is an error that names it. */
  lemma OffToken()
    ensures ParseStatus("off") == Err(UnknownState("off"))
  {
    WordToken("off", "off");
  }

  /** The status constants do not all read back: "stopped" is not a state
      token the classifier knows. */
  lemma StatusTextReadBack()
    ensures ParseStatus(Running.Text()) == Ok(Running)
    ensures ParseStatus(Stopped.Text()) == Err(UnknownState("stopped"))
  {
    RunningToken();
    StoppedText();
    WordToken("stopped", "stopped");
  }

  /** The constant of `Stopped` is already a lower-case single word. */
  lemma StoppedText()
    ensures NoSpace(Stopped.Text()) && ToLower(Stopped.Text()) == Stopped.Text()
  {
  }

  /* ------------------------------------------------------------------ */
  /* A listing                                                           */
  /* ------------------------------------------------------------------ */

  const Header: string := Interleave(["Id", "Name", "State"], [" ", " ", " ", ""])
  const RunningLine: string := Interleave(["1", "android0", "running"], [" ", " ", " ", ""])
  const ForeignLine: string := Interleave(["2", "other", "shut", "off"], [" ", " ", " ", " ", ""])
  const StoppedLine: string := Interleave(["-", "android1", "shut", "off"], [" ", " ", " ", " ", ""])
  const Sample: string := JoinLines([Header, RunningLine, ForeignLine, StoppedLine, ""])

  /** The listing as `virsh` prints it, one line at a time. */
  lemma HeaderText()
    ensures Header == " Id Name State"
    ensures '\n' !in Header
  {
  }

  lemma RunningLineText()
    ensures RunningLine == " 1 android0 running"
    ensures '\n' !in RunningLine
  {
  }

  lemma ForeignLineText()
    ensures ForeignLine == " 2 other shut off"
    ensures '\n' !in ForeignLine
  {
  }

  lemma StoppedLineText()
    ensures StoppedLine == " - android1 shut off"
    ensures '\n' !in StoppedLine
  {
  }

  lemma RunningLineRow()
    ensures RowOf(RunningLine) == Some(Row("android0", "running", true))
  {
    RowOfLayout(["1", "android0", "running"], [" ", " ", " ", ""]);
  }

  lemma ForeignLineRow()
    ensures RowOf(ForeignLine) == Some(Row("other", "shut", true))
  {
    RowOfLayout(["2", "other", "shut", "off"], [" ", " ", " ", " ", ""]);
  }

  lemma StoppedLineRow()
    ensures RowOf(StoppedLine) == Some(Row("android1", "shut", true))
  {
    RowOfLayout(["-", "android1", "shut", "off"], [" ", " ", " ", " ", ""]);
  }

  /** What each body line of the sample contributes. */
  lemma SampleRunningLine(i: nat, line: string, env: Env)
    requires i > 0 && RowOf(line) == Some(Row("android0", "running", true))
    ensures ParseLine(i, line, env) == Ok(Some(Instance("0", GetVMIP("0", env), Running)))
  {
    RunningToken();
    PrefixRoundTrip("android0", ReservedPrefix, "0");
    ParseLineSpec(i, line, env);
  }

  lemma SampleForeignLine(i: nat, line: string, env: Env)
    requires i > 0 && RowOf(line) == Some(Row("other", "shut", true))
    ensures ParseLine(i, line, env) == Ok(None)
  {
    ShutToken();
    assert !HasPrefix("other", ReservedPrefix);
    ParseLineSpec(i, line, env);
  }

  lemma SampleStoppedLine(i: nat, line: string, env: Env)
    requires i > 0 && RowOf(line) == Some(Row("android1", "shut", true))
    ensures ParseLine(i, line, env) == Ok(Some(Instance("1", GetVMIP("1", env), Stopped)))
  {
    ShutToken();
    PrefixRoundTrip("android1", ReservedPrefix, "1");
    ParseLineSpec(i, line, env);
  }

  /** The last two lines of the sample: the stopped domain, then the
      trailing empty line. */
  lemma SampleTail(ls: seq<string>, env: Env, i1: Instance)
    requires |ls| == 5
    requires ParseLine(3, ls[3], env) == Ok(Some(i1))
    requires ParseLine(4, ls[4], env) == Ok(None)
    ensures ParseFrom(ls, 3, env) == Ok([i1])
  {
    ParseFromEnd(ls, env);
    ParseFromSkip(ls, 4, env);
    ParseFromKeep(ls, 3, env, i1, []);
    Single(i1);
  }

  lemma Single<T>(a: T)
    ensures [a] + [] == [a]
  {
  }

  lemma Pair<T>(a: T, b: T)
    ensures [a] + [b] == [a, b]
  {
  }

  /** The two middle lines: the running domain, then the foreign one. */
  lemma SampleMiddle(ls: seq<string>, env: Env, i0: Instance, i1: Instance)
    requires |ls| == 5
    requires ParseLine(1, ls[1], env) == Ok(Some(i0))
    requires ParseLine(2, ls[2], env) == Ok(None)
    requires ParseFrom(ls, 3, env) == Ok([i1])
    ensures ParseFrom(ls, 1, env) == Ok([i0, i1])
  {
    ParseFromSkip(ls, 2, env);
    ParseFromKeep(ls, 1, env, i0, [i1]);
    Pair(i0, i1);
  }

  /** What each line of a listing shaped like the sample contributes. */
  lemma SampleRows(header: string, l1: string, l2: string, l3: string, env: Env)
    requires RowOf(l1) == Some(Row("android0", "running", true))
    requires RowOf(l2) == Some(Row("other", "shut", true))
    requires RowOf(l3) == Some(Row("android1", "shut", true))
    ensures ParseLine(0, header, env) == Ok(None)
    ensures ParseLine(1, l1, env) == Ok(Some(Instance("0", GetVMIP("0", env), Running)))
    ensures ParseLine(2, l2, env) == Ok(None)
    ensures ParseLine(3, l3, env) == Ok(Some(Instance("1", GetVMIP("1", env), Stopped)))
    ensures ParseLine(4, "", env) == Ok(None)
  {
    SampleRunningLine(1, l1, env);
    SampleForeignLine(2, l2, env);
    SampleStoppedLine(3, l3, env);
  }

  /** The header line of the sample is skipped. */
  lemma SampleHead(ls: seq<string>, env: Env, i0: Instance, i1: Instance)
    requires |ls| == 5
    requires ParseLine(0, ls[0], env) == Ok(None)
    requires ParseFrom(ls, 1, env) == Ok([i0, i1])
    ensures ParseFrom(ls, 0, env) == Ok([i0, i1])
  {
    ParseFromSkip(ls, 0, env);
  }

  /** The line loop over five lines that contribute like the sample's. */
  lemma SampleParse(ls: seq<string>, env: Env, i0: Instance, i1: Instance)
    requires |ls| == 5
    requires ParseLine(0, ls[0], env) == Ok(None)
    requires ParseLine(1, ls[1], env) == Ok(Some(i0))
    requires ParseLine(2, ls[2], env) == Ok(None)
    requires ParseLine(3, ls[3], env) == Ok(Some(i1))
    requires ParseLine(4, ls[4], env) == Ok(None)
    ensures ParseFrom(ls, 0, env) == Ok([i0, i1])
  {
    SampleTail(ls, env, i1);
    SampleMiddle(ls, env, i0, i1);
    SampleHead(ls, env, i0, i1);
  }

  /** A listing shaped like the sample: the header and the trailing empty
      line are skipped, the foreign domain is dropped, and a shut-off domain
      listed with the `-` id is still asked for its addresses. */
  lemma SampleShape(header: string, l1: string, l2: string, l3: string, env: Env)
    requires '\n' !in header && '\n' !in l1 && '\n' !in l2 && '\n' !in l3
    requires RowOf(l1) == Some(Row("android0", "running", true))
    requires RowOf(l2) == Some(Row("other", "shut", true))
    requires RowOf(l3) == Some(Row("android1", "shut", true))
    ensures List(Ran(JoinLines([header, l1, l2, l3, ""])), env) ==
      Ok([Instance("0", GetVMIP("0", env), Running), Instance("1", GetVMIP("1", env), Stopped)])
  {
    var ls := [header, l1, l2, l3, ""];
    ListOfLines(ls, env);
    SampleRows(header, l1, l2, l3, env);
    SampleParse(ls, env, Instance("0", GetVMIP("0", env), Running), Instance("1", GetVMIP("1", env), Stopped));
  }

  /** No line of the sample holds a newline. */
  lemma SampleLinesPlain()
    ensures '\n' !in Header && '\n' !in RunningLine && '\n' !in ForeignLine && '\n' !in StoppedLine
  {
    HeaderText();
    RunningLineText();
    ForeignLineText();
    StoppedLineText();
  }

  /** The literal sample listing: the header, a running managed domain, a
      shut-off foreign domain, a shut-off managed domain listed with the `-`
      id, and the empty piece after the final newline. */
  lemma SampleListing(env: Env)
    ensures List(Ran(Sample), env) ==
      Ok([Instance("0", GetVMIP("0", env), Running), Instance("1", GetVMIP("1", env), Stopped)])
  {
    SampleLinesPlain();
    RunningLineRow();
    ForeignLineRow();
    StoppedLineRow();
    SampleShape(Header, RunningLine, ForeignLine, StoppedLine, env);
  }

  const IdLessLine: string := Interleave(["android0", "shut", "off"], ["", " ", " ", ""])
  const TwoColumn: string := Interleave(["android2", "running"], ["", " ", ""])

  lemma IdLessText()
    ensures IdLessLine == "android0 shut off"
  {
  }

  lemma TwoColumnText()
    ensures TwoColumn == "android2 running"
  {
  }

  lemma IdLessLineRow()
    ensures RowOf(IdLessLine) == Some(Row("shut", "off", true))
  {
    RowOfLayout(["android0", "shut", "off"], ["", " ", " ", ""]);
  }

  /** Without an id column "android0 shut off" is read as id "android0",
      name "shut" and state "off", and "off" is no state. */
  lemma IdLessShutOff(env: Env)
    ensures List(Ran(JoinLines([Header, IdLessLine])), env) == Err(UnknownState("off"))
  {
    var ls := [Header, IdLessLine];
    assert forall k :: 0 <= k < |ls| ==> '\n' !in ls[k] by {
      HeaderText();
      IdLessText();
    }
    ListOfLines(ls, env);
    assert ParseLine(1, IdLessLine, env) == Err(UnknownState("off")) by {
      IdLessLineRow();
      OffToken();
      ParseLineSpec(1, IdLessLine, env);
    }
    assert ParseLine(0, Header, env) == Ok(None);
    ParseFromStop(ls, 1, env, UnknownState("off"));
    ParseFromSkip(ls, 0, env);
  }

  lemma TwoColumnRow()
    ensures RowOf(TwoColumn) == Some(Row("android2", "running", false))
  {
    RowOfLayout(["android2", "running"], ["", " ", ""]);
  }

  /** A two-column line yields an instance without addresses, whatever the
      guest agent would have answered. */
  lemma TwoColumnShape(header: string, line: string, env: Env)
    requires '\n' !in header && '\n' !in line
    requires RowOf(line) == Some(Row("android2", "running", false))
    ensures List(Ran(JoinLines([header, line])), env) == Ok([Instance("2", [], Running)])
  {
    var ls := [header, line];
    var inst := Instance("2", [], Running);
    ListOfLines(ls, env);
    assert ParseLine(1, line, env) == Ok(Some(inst)) by {
      RunningToken();
      PrefixRoundTrip("android2", ReservedPrefix, "2");
      ParseLineSpec(1, line, env);
    }
    ParseFromEnd(ls, env);
    ParseFromKeep(ls, 1, env, inst, []);
    ParseFromSkip(ls, 0, env);
    Single(inst);
  }


  /* ------------------------------------------------------------------ */
  /* A guest-agent reply                                                 */
  /* ------------------------------------------------------------------ */

  const NoStats: Statistics := Statistics(0, 0, 0, 0, 0, 0, 0, 0)
  const Lo: NetInterface :=
    NetInterface("lo", [IpAddress("ipv4", "127.0.0.1", 8)], NoStats, "00:00:00:00:00:00")
  const Eth0: NetInterface :=
    NetInterface("eth0", [IpAddress("ipv4", "192.168.1.5", 24), IpAddress("ipv6", "bogus", 64)], NoStats, "52:54:00:12:34:56")
  const Eth1: NetInterface :=
    NetInterface("eth1", [IpAddress("ipv4", "192.168.1.5", 24)], NoStats, "52:54:00:12:34:57")

  const Loopback: Addr := V4([127, 0, 0, 1])
  const Lan: Addr := V4([192, 168, 1, 5])

  /** A parser that knows the two literals of the reply and rejects "bogus". */
  predicate KnowsReply(parse: string -> Option<Addr>) {
    && parse("127.0.0.1") == Some(Loopback)
    && parse("192.168.1.5") == Some(Lan)
    && parse("bogus") == None
  }

  /** The addresses of a three-interface reply, interface by interface. */
  lemma ThreeInterfaces(x: NetInterface, y: NetInterface, z: NetInterface, parse: string -> Option<Addr>)
    ensures ResponseAddresses(Response([x, y, z]), parse) ==
      KeepParsed(EntryTexts(x.ipAddresses), parse)
        + (KeepParsed(EntryTexts(y.ipAddresses), parse) + KeepParsed(EntryTexts(z.ipAddresses), parse))
  {
    assert [x, y, z] == [x] + [y, z];
    assert [y, z] == [y] + [z];
    assert [z] == [z] + [];
    InterfaceOrder(x, [y, z], parse);
    InterfaceOrder(y, [z], parse);
    InterfaceOrder(z, [], parse);
  }

  lemma LoAddresses(parse: string -> Option<Addr>)
    requires KnowsReply(parse)
    ensures KeepParsed(EntryTexts(Lo.ipAddresses), parse) == [Loopback]
  {
    assert EntryTexts(Lo.ipAddresses) == ["127.0.0.1"];
  }

  lemma Eth0Addresses(parse: string -> Option<Addr>)
    requires KnowsReply(parse)
    ensures KeepParsed(EntryTexts(Eth0.ipAddresses), parse) == [Lan]
  {
    assert EntryTexts(Eth0.ipAddresses) == ["192.168.1.5", "bogus"];
    assert ["192.168.1.5", "bogus"][..1] == ["192.168.1.5"];
  }

  lemma Eth1Addresses(parse: string -> Option<Addr>)
    requires KnowsReply(parse)
    ensures KeepParsed(EntryTexts(Eth1.ipAddresses), parse) == [Lan]
  {
    assert EntryTexts(Eth1.ipAddresses) == ["192.168.1.5"];
  }

  lemma Triple<T>(a: T, b: T, c: T)
    ensures [a] + ([b] + [c]) == [a, b, c]
  {
  }

  /** The reply is read interface by interface: the loopback address is
      kept, an unparsable entry is skipped, and an address reported twice
      is returned twice. */
  lemma ReplyAddresses(parse: string -> Option<Addr>)
    requires KnowsReply(parse)
    ensures ResponseAddresses(Response([Lo, Eth0, Eth1]), parse) == [Loopback, Lan, Lan]
  {
    ThreeInterfaces(Lo, Eth0, Eth1, parse);
    LoAddresses(parse);
    Eth0Addresses(parse);
    Eth1Addresses(parse);
    Triple(Loopback, Lan, Lan);
  }

  /** The same, end to end through the guest agent of domain "android0". */
  lemma AgentReply(output: Bytes, env: Env)
    requires env.agent("android0", InterfacesRequest) == Ran(output)
    requires env.decode(output) == Some(Response([Lo, Eth0, Eth1]))
    requires KnowsReply(env.parseAddr)
    ensures GetVMIP("0", env) == [Loopback, Lan, Lan]
    ensures GetVMIP("0", env)[0].IsLoopback()
  {
    assert ReservedPrefix + "0" == "android0";
    ReplyAddresses(env.parseAddr);
  }

  /** A reply that does not decode, or an agent that cannot be reached,
      gives no addresses. */
  lemma AgentUnavailable(output: Bytes, env: Env)
    requires env.agent("android0", InterfacesRequest) == Ran(output) || env.agent("android0", InterfacesRequest).Failed?
    requires env.agent("android0", InterfacesRequest).Ran? ==> env.decode(output) == None
    ensures GetVMIP("0", env) == []
  {
    assert ReservedPrefix + "0" == "android0";
  }
}
