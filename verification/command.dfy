/** The inventory parser: `Command.List` over the text printed by
    `virsh list --all`, and the status classifier `parseStatus`. */
module Command {
  import opened Wrappers
  import opened Subprocess
  import opened GoStrings
  import opened Domain
  import opened Agent

  /** Why a listing fails. */
  datatype ListError =
    | ListCommandFailed(reason: string)  // `virsh list --all` could not run or exited non-zero
    | UnknownState(state: string)        // the classifier met this (trimmed, lower-cased) token

  /* ------------------------------------------------------------------ */
  /* parseStatus                                                         */
  /* ------------------------------------------------------------------ */

  const RunningTokens: set<string> := {"running", "r"}
  const StoppedTokens: set<string> := {"shut", "shut off", "s"}

  /** The form a state token is compared in: trimmed, then lower-cased. */
  function Normalize(state: string): string {
    ToLower(TrimSpace(state))
  }

  /** The switch of `parseStatus` on an already normalised token. */
  function Classify(token: string): Result<Status, ListError> {
    if token == "running" || token == "r" then Ok(Running)
    else if token == "shut" || token == "shut off" || token == "s" then Ok(Stopped)
    else Err(UnknownState(token))
  }

  /** `parseStatus`: a closed classification of a state token. The Go code
      panics on any other token; here that is an `UnknownState` error. */
  function ParseStatus(state: string): Result<Status, ListError> {
    Classify(Normalize(state))
  }

  /** The classifier is closed: the running tokens give Running, the
      stopped tokens give Stopped, and every other token is an error that
      names it. */
  lemma ParseStatusClosed(state: string)
    ensures ParseStatus(state) == Ok(Running) <==> Normalize(state) in RunningTokens
    ensures ParseStatus(state) == Ok(Stopped) <==> Normalize(state) in StoppedTokens
    ensures ParseStatus(state).Err? <==> Normalize(state) !in RunningTokens + StoppedTokens
    ensures ParseStatus(state).Err? ==> ParseStatus(state).error == UnknownState(Normalize(state))
  {
  }

  /** Surrounding white space never changes the classifier's verdict. */
  lemma ParseStatusIgnoresSpace(state: string)
    ensures ParseStatus(TrimSpace(state)) == ParseStatus(state)
  {
    var t := TrimSpace(state);
    TrimSpacePadded("", t, "");
    assert "" + t + "" == t;
  }

  /** Letter case never changes the classifier's verdict. */
  lemma ParseStatusIgnoresCase(state: string)
    ensures ParseStatus(ToLower(state)) == ParseStatus(state)
  {
    TrimSpaceToLower(state);
    ToLowerIdempotent(TrimSpace(state));
  }

  /** The classifier sees only the normalised token. */
  lemma ParseStatusOfNormalized(state: string)
    ensures ParseStatus(Normalize(state)) == ParseStatus(state)
  {
    var t := TrimSpace(state);
    ParseStatusIgnoresCase(t);
    ParseStatusIgnoresSpace(state);
  }

  /* ------------------------------------------------------------------ */
  /* One line of the listing                                             */
  /* ------------------------------------------------------------------ */

  /** The columns a listing line is read as. */
  datatype Row = Row(name: string, state: string, hasId: bool)

  /** Field selection: three or more fields are `[id, name, state, ...]`,
      exactly two are `[name, state]`, fewer are no row at all. */
  function RowOf(line: string): Option<Row> {
    var fields := Fields(line);
    if |fields| >= 3 then Some(Row(fields[1], fields[2], true))
    else if |fields| >= 2 then Some(Row(fields[0], fields[1], false))
    else None
  }

  /** The body of the loop in `Command.List` for line number `i`: nothing
      for the header, blank and short lines; the state is classified
      before the name is checked for the reserved prefix; the addresses are
      looked up only when the line has an id column. */
  function ParseLine(i: nat, line: string, env: Env): (r: Result<Option<Instance>, ListError>)
    ensures i == 0 || AllSpace(line) || |Fields(line)| < 2 ==> r == Ok(None)
    ensures r.Ok? && r.value.Some? ==>
      && RowOf(line).Some?
      && HasPrefix(RowOf(line).value.name, ReservedPrefix)
      && ReservedPrefix + r.value.value.name == RowOf(line).value.name
  {
    if i == 0 || TrimSpace(line) == "" then Ok(None)
    else
      match RowOf(line)
      case None => Ok(None)
      case Some(row) =>
        match ParseStatus(row.state)
        case Err(e) => Err(e)
        case Ok(status) =>
          if HasPrefix(row.name, ReservedPrefix) then
            var cleanName := TrimPrefix(row.name, ReservedPrefix);
            var ips := if row.hasId then GetVMIP(cleanName, env) else [];
            Ok(Some(Instance(cleanName, ips, status)))
          else Ok(None)
  }

  /** The blank-line test is subsumed by the field count: a line is either
      skipped, fails on its state, or yields the instance it stands for. */
  lemma ParseLineSpec(i: nat, line: string, env: Env)
    ensures ParseLine(i, line, env) ==
      if i == 0 || RowOf(line).None? then Ok(None)
      else if ParseStatus(RowOf(line).value.state).Err? then Err(ParseStatus(RowOf(line).value.state).error)
      else if HasPrefix(RowOf(line).value.name, ReservedPrefix) then Ok(Some(InstanceOf(line, env)))
      else Ok(None)
  {
    if TrimSpace(line) == "" {
      FieldsEmptyIffAllSpace(line);
    }
  }

  /* ------------------------------------------------------------------ */
  /* The whole listing                                                   */
  /* ------------------------------------------------------------------ */

  /** A line whose state `Command.List` classifies: not the header, with
      at least two fields. */
  predicate Counted(lines: seq<string>, j: int) {
    0 < j < |lines| && RowOf(lines[j]).Some?
  }

  /** A counted line that names a managed domain. */
  predicate Qualifies(lines: seq<string>, j: int) {
    Counted(lines, j) && HasPrefix(RowOf(lines[j]).value.name, ReservedPrefix)
  }

  /** The lines from `i` on, parsed one by one; the first line that fails
      fails the whole listing. */
  function ParseFrom(lines: seq<string>, i: nat, env: Env): Result<seq<Instance>, ListError>
    decreases |lines| - i
  {
    if i >= |lines| then Ok([])
    else
      match ParseLine(i, lines[i], env)
      case Err(e) => Err(e)
      case Ok(found) =>
        match ParseFrom(lines, i + 1, env)
        case Err(e) => Err(e)
        case Ok(rest) =>
          Ok((if found.Some? then [found.value] else []) + rest)
  }

  /* Single steps of the line loop. */

  lemma ParseFromEnd(lines: seq<string>, env: Env)
    ensures ParseFrom(lines, |lines|, env) == Ok([])
  {
  }

  lemma ParseFromSkip(lines: seq<string>, i: nat, env: Env)
    requires i < |lines| && ParseLine(i, lines[i], env) == Ok(None)
    ensures ParseFrom(lines, i, env) == ParseFrom(lines, i + 1, env)
  {
    if ParseFrom(lines, i + 1, env).Ok? {
      assert [] + ParseFrom(lines, i + 1, env).value == ParseFrom(lines, i + 1, env).value;
    }
  }

  lemma ParseFromKeep(lines: seq<string>, i: nat, env: Env, inst: Instance, rest: seq<Instance>)
    requires i < |lines| && ParseLine(i, lines[i], env) == Ok(Some(inst))
    requires ParseFrom(lines, i + 1, env) == Ok(rest)
    ensures ParseFrom(lines, i, env) == Ok([inst] + rest)
  {
  }

  lemma ParseFromStop(lines: seq<string>, i: nat, env: Env, e: ListError)
    requires i < |lines| && ParseLine(i, lines[i], env) == Err(e)
    ensures ParseFrom(lines, i, env) == Err(e)
  {
  }

  /** A listing printed line by line is parsed line by line. */
  lemma ListOfLines(lines: seq<string>, env: Env)
    requires |lines| >= 1 && forall k :: 0 <= k < |lines| ==> '\n' !in lines[k]
    ensures List(Ran(JoinLines(lines)), env) == ParseFrom(lines, 0, env)
  {
    LinesOfJoinLines(lines);
  }

  /** Every instance of a successful parse comes from a qualifying line at
      or after `i`, whose name is the instance's name with the reserved
      prefix put back. */
  lemma {:induction false} ParseFromOrigin(lines: seq<string>, i: nat, env: Env)
    ensures ParseFrom(lines, i, env).Ok? ==> forall inst :: inst in ParseFrom(lines, i, env).value ==>
      exists j :: i <= j < |lines| && Qualifies(lines, j)
        && ReservedPrefix + inst.name == RowOf(lines[j]).value.name
    decreases |lines| - i
  {
    if i < |lines| && ParseFrom(lines, i, env).Ok? {
      ParseFromOrigin(lines, i + 1, env);
      ParseLineSpec(i, lines[i], env);
    }
  }

  /** `Command.List`: run `virsh list --all`, split its output into lines
      and parse them, the first line being the table header. */
  function List(listing: Exec<string>, env: Env): (r: Result<seq<Instance>, ListError>)
    ensures listing.Failed? ==> r == Err(ListCommandFailed(listing.reason))
    ensures listing.Ran? && r.Ok? ==> forall inst :: inst in r.value ==>
      exists j :: Qualifies(Lines(listing.stdout), j)
        && ReservedPrefix + inst.name == RowOf(Lines(listing.stdout)[j]).value.name
  {
    match listing
    case Failed(reason) => Err(ListCommandFailed(reason))
    case Ran(output) =>
      assert Lines(listing.stdout) == Lines(output);
      ParseFromOrigin(Lines(output), 0, env);
      ParseFrom(Lines(output), 0, env)
  }

  /* ------------------------------------------------------------------ */
  /* The listing, described line by line                                 */
  /* ------------------------------------------------------------------ */

  /** Every counted line from `i` on has a recognised state. */
  predicate StatesRecognised(lines: seq<string>, i: nat) {
    forall j :: i <= j < |lines| && Counted(lines, j) ==> ParseStatus(RowOf(lines[j]).value.state).Ok?
  }

  /** The positions of the qualifying lines from `i` on, in increasing order. */
  function QualifyingLines(lines: seq<string>, i: nat): (q: seq<nat>)
    ensures forall k :: 0 <= k < |q| ==> i <= q[k] < |lines| && Qualifies(lines, q[k])
    ensures forall k, l :: 0 <= k < l < |q| ==> q[k] < q[l]
    ensures forall j :: i <= j < |lines| && Qualifies(lines, j) ==> j in q
    decreases |lines| - i
  {
    if i >= |lines| then []
    else (if Qualifies(lines, i) then [i] else []) + QualifyingLines(lines, i + 1)
  }

  /** The instance a qualifying line with a recognised state stands for. */
  function InstanceOf(line: string, env: Env): Instance
    requires RowOf(line).Some? && ParseStatus(RowOf(line).value.state).Ok?
  {
    var row := RowOf(line).value;
    var name := TrimPrefix(row.name, ReservedPrefix);
    Instance(name, if row.hasId then GetVMIP(name, env) else [], ParseStatus(row.state).value)
  }

  /** The listing succeeds exactly when every counted line has a recognised
      state, whether or not its name carries the reserved prefix. */
  lemma {:induction false} ParseFromOkIff(lines: seq<string>, i: nat, env: Env)
    ensures ParseFrom(lines, i, env).Ok? <==> StatesRecognised(lines, i)
    decreases |lines| - i
  {
    if i < |lines| {
      ParseFromOkIff(lines, i + 1, env);
      ParseLineSpec(i, lines[i], env);
    }
  }

  /** `r` holds, position by position, the instances of the lines at `q`. */
  predicate BuiltFrom(r: seq<Instance>, q: seq<nat>, lines: seq<string>, env: Env) {
    && |r| == |q|
    && forall k :: 0 <= k < |r| ==>
         && q[k] < |lines|
         && RowOf(lines[q[k]]).Some?
         && ParseStatus(RowOf(lines[q[k]]).value.state).Ok?
         && r[k] == InstanceOf(lines[q[k]], env)
  }

  lemma BuiltFromCons(j: nat, r: seq<Instance>, q: seq<nat>, lines: seq<string>, env: Env)
    requires BuiltFrom(r, q, lines, env)
    requires j < |lines| && RowOf(lines[j]).Some? && ParseStatus(RowOf(lines[j]).value.state).Ok?
    ensures BuiltFrom([InstanceOf(lines[j], env)] + r, [j] + q, lines, env)
  {
    var r' := [InstanceOf(lines[j], env)] + r;
    var q' := [j] + q;
    forall k | 0 <= k < |r'|
      ensures q'[k] < |lines| && RowOf(lines[q'[k]]).Some? && ParseStatus(RowOf(lines[q'[k]]).value.state).Ok?
      ensures r'[k] == InstanceOf(lines[q'[k]], env)
    {
      if k > 0 {
        assert r'[k] == r[k - 1] && q'[k] == q[k - 1];
      }
    }
  }

  /** One step of a successful listing: the line at `i` contributes its
      instance exactly when it qualifies. */
  lemma ParseFromStep(lines: seq<string>, i: nat, env: Env)
    requires i < |lines| && ParseFrom(lines, i, env).Ok?
    ensures ParseFrom(lines, i + 1, env).Ok?
    ensures Qualifies(lines, i) ==> ParseStatus(RowOf(lines[i]).value.state).Ok?
    ensures ParseFrom(lines, i, env).value ==
      (if Qualifies(lines, i) then [InstanceOf(lines[i], env)] else []) + ParseFrom(lines, i + 1, env).value
  {
    ParseLineSpec(i, lines[i], env);
  }

  /** On success, the result has one instance per qualifying line, in the
      order of the lines, each built from its own line. */
  lemma {:induction false} ParseFromContents(lines: seq<string>, i: nat, env: Env)
    requires ParseFrom(lines, i, env).Ok?
    ensures BuiltFrom(ParseFrom(lines, i, env).value, QualifyingLines(lines, i), lines, env)
    decreases |lines| - i
  {
    if i < |lines| {
      ParseFromStep(lines, i, env);
      ParseFromContents(lines, i + 1, env);
      var rest := ParseFrom(lines, i + 1, env).value;
      var q' := QualifyingLines(lines, i + 1);
      if Qualifies(lines, i) {
        assert QualifyingLines(lines, i) == [i] + q';
        BuiltFromCons(i, rest, q', lines, env);
      } else {
        assert ParseFrom(lines, i, env).value == rest;
        assert QualifyingLines(lines, i) == q';
      }
    }
  }

  /** Line `j` is the first counted line from `i` on whose state is not
      recognised, and `e` is the error it raises. */
  predicate FirstUnrecognised(lines: seq<string>, i: nat, j: int, e: ListError) {
    && i <= j < |lines|
    && Counted(lines, j)
    && ParseStatus(RowOf(lines[j]).value.state) == Err(e)
    && StatesRecognisedBetween(lines, i, j)
  }

  predicate StatesRecognisedBetween(lines: seq<string>, i: nat, j: int) {
    forall j' :: i <= j' < j && Counted(lines, j') ==> ParseStatus(RowOf(lines[j']).value.state).Ok?
  }

  lemma FirstUnrecognisedExtend(lines: seq<string>, i: nat, j: int, e: ListError)
    requires FirstUnrecognised(lines, i + 1, j, e)
    requires Counted(lines, i) ==> ParseStatus(RowOf(lines[i]).value.state).Ok?
    ensures FirstUnrecognised(lines, i, j, e)
  {
  }

  /** On failure, the error is that of the first counted line whose state
      is not recognised. */
  lemma {:induction false} ParseFromFailure(lines: seq<string>, i: nat, env: Env)
    requires ParseFrom(lines, i, env).Err?
    ensures exists j :: FirstUnrecognised(lines, i, j, ParseFrom(lines, i, env).error)
    decreases |lines| - i
  {
    var line := lines[i];
    var e := ParseFrom(lines, i, env).error;
    ParseLineSpec(i, line, env);
    if ParseLine(i, line, env).Err? {
      assert FirstUnrecognised(lines, i, i, e);
    } else {
      assert ParseFrom(lines, i + 1, env) == Err(e);
      ParseFromFailure(lines, i + 1, env);
      var j :| FirstUnrecognised(lines, i + 1, j, e);
      assert Counted(lines, i) ==> ParseStatus(RowOf(lines[i]).value.state).Ok?;
      FirstUnrecognisedExtend(lines, i, j, e);
    }
  }

  /* ------------------------------------------------------------------ */
  /* Consequences for whole listings                                     */
  /* ------------------------------------------------------------------ */

  /** Field selection over a line laid out as words and white-space gaps:
      with an id column the second and third words are the name and state,
      without one the first two are. */
  lemma RowOfLayout(ws: seq<string>, gaps: seq<string>)
    requires Words(ws) && Separators(ws, gaps)
    ensures |ws| >= 3 ==> RowOf(Interleave(ws, gaps)) == Some(Row(ws[1], ws[2], true))
    ensures |ws| == 2 ==> RowOf(Interleave(ws, gaps)) == Some(Row(ws[0], ws[1], false))
    ensures |ws| < 2 ==> RowOf(Interleave(ws, gaps)).None?
  {
    FieldsOfInterleave(ws, gaps);
  }

  /** A listing succeeds exactly when `virsh` ran and every counted line
      has a recognised state, whether or not it names a managed domain. */
  lemma ListOkIff(listing: Exec<string>, env: Env)
    ensures List(listing, env).Ok? <==> listing.Ran? && StatesRecognised(Lines(listing.stdout), 0)
  {
    if listing.Ran? {
      ParseFromOkIff(Lines(listing.stdout), 0, env);
    }
  }

  /** A successful listing holds one instance per qualifying line, in line
      order, each built from its own line's name, state and id column. */
  lemma ListContents(output: string, env: Env)
    requires List(Ran(output), env).Ok?
    ensures BuiltFrom(List(Ran(output), env).value, QualifyingLines(Lines(output), 0), Lines(output), env)
  {
    ParseFromContents(Lines(output), 0, env);
  }

  /** A failed listing reports either the command failure or the state of
      the first counted line that the classifier rejects. */
  lemma ListFailure(listing: Exec<string>, env: Env)
    requires List(listing, env).Err?
    ensures listing.Failed? ==> List(listing, env).error == ListCommandFailed(listing.reason)
    ensures listing.Ran? ==> exists j :: FirstUnrecognised(Lines(listing.stdout), 0, j, List(listing, env).error)
  {
    if listing.Ran? {
      ParseFromFailure(Lines(listing.stdout), 0, env);
    }
  }

  /** One counted line with an unknown state fails the listing even when
      its name lacks the reserved prefix and would have been skipped. */
  lemma ForeignLineFails(output: string, j: nat, env: Env)
    requires Counted(Lines(output), j)
    requires !HasPrefix(RowOf(Lines(output)[j]).value.name, ReservedPrefix)
    requires ParseStatus(RowOf(Lines(output)[j]).value.state).Err?
    ensures List(Ran(output), env).Err?
  {
    ListOkIff(Ran(output), env);
  }

  /** A single field never holds white space, so the two-word token
      "shut off" is never what the classifier sees from a listing line. */
  lemma ShutOffUnreachable(line: string)
    requires RowOf(line).Some?
    ensures Normalize(RowOf(line).value.state) != "shut off"
  {
    var state := RowOf(line).value.state;
    assert NoSpace(state);
    ToLowerKeepsSpace(state);
    assert NoSpace(Normalize(state));
    assert IsSpace("shut off"[4]);
  }

  /** The addresses of a listed instance: with an id column, the reply of
      the guest agent of exactly the listed domain (the prefix stripped from
      the name is put back); without one, none at all. */
  lemma InstanceAddresses(line: string, env: Env)
    requires RowOf(line).Some? && ParseStatus(RowOf(line).value.state).Ok?
    requires HasPrefix(RowOf(line).value.name, ReservedPrefix)
    ensures !RowOf(line).value.hasId ==> InstanceOf(line, env).ips == []
    ensures RowOf(line).value.hasId ==>
      InstanceOf(line, env).ips ==
        match env.agent(RowOf(line).value.name, InterfacesRequest)
        case Failed(_) => []
        case Ran(output) => DecodeAddresses(output, env)
  {
    var name := RowOf(line).value.name;
    PrefixRoundTrip(name, ReservedPrefix, "");
  }
}
