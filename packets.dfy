/**
 * The packet unions of cove-core/src/macros.rs. The `packets!` macro takes
 * a list of commands, each with the type of its reply, and a list of
 * notifications, and generates three tagged unions, Cmd, Rpl and Ntf, with
 * one variant per entry, plus a `From` injection of every payload type into
 * its union and a `TryFrom` projection back out of it.
 *
 * The macro is modelled on one example instance: three commands (Nick,
 * Send, Who) and three notifications (Join, Nick, Part). Each `From` is a
 * function named after its payload type (`NickCmdIntoCmd`), each `TryFrom`
 * likewise (`NickCmdFromCmd`), and both are written out once per payload
 * type, as the macro expands them.
 */
module Packets {
  import opened Base

  // ---------------------------------------------------------------------------
  // Example payloads
  // ---------------------------------------------------------------------------

  datatype NickCmd = NickCmd(nick: string)
  datatype SendCmd = SendCmd(parent: Option<nat>, content: string)
  datatype WhoCmd = WhoCmd

  datatype NickRpl = NickRpl(nick: string)
  datatype SendRpl = SendRpl(id: nat)
  datatype WhoRpl = WhoRpl(nicks: seq<string>)

  datatype JoinNtf = JoinNtf(nick: string)
  datatype NickNtf = NickNtf(from: string, to: string)
  datatype PartNtf = PartNtf(nick: string)

  // ---------------------------------------------------------------------------
  // The unions
  // ---------------------------------------------------------------------------

  /** Commands, one variant per `cmd` entry. */
  datatype Cmd = CmdNick(nickCmd: NickCmd) | CmdSend(sendCmd: SendCmd) | CmdWho(whoCmd: WhoCmd)

  /** Replies, one variant per `cmd` entry, under the same names. */
  datatype Rpl = RplNick(nickRpl: NickRpl) | RplSend(sendRpl: SendRpl) | RplWho(whoRpl: WhoRpl)

  /** Notifications, one variant per `ntf` entry. */
  datatype Ntf = NtfJoin(joinNtf: JoinNtf) | NtfNick(nickNtf: NickNtf) | NtfPart(partNtf: PartNtf)

  /** The variant names: the `name` tag the unions are serialised under. */
  datatype CmdName = Nick | Send | Who
  datatype NtfName = Join | Nick | Part

  function NameOfCmd(c: Cmd): CmdName {
    match c
    case CmdNick(_) => CmdName.Nick
    case CmdSend(_) => Send
    case CmdWho(_) => Who
  }

  function NameOfRpl(r: Rpl): CmdName {
    match r
    case RplNick(_) => CmdName.Nick
    case RplSend(_) => Send
    case RplWho(_) => Who
  }

  function NameOfNtf(n: Ntf): NtfName {
    match n
    case NtfJoin(_) => Join
    case NtfNick(_) => NtfName.Nick
    case NtfPart(_) => Part
  }

  // ---------------------------------------------------------------------------
  // From and TryFrom for commands
  // ---------------------------------------------------------------------------

  function NickCmdIntoCmd(x: NickCmd): (c: Cmd)
    ensures NameOfCmd(c) == CmdName.Nick
  {
    CmdNick(x)
  }

  function SendCmdIntoCmd(x: SendCmd): (c: Cmd)
    ensures NameOfCmd(c) == Send
  {
    CmdSend(x)
  }

  function WhoCmdIntoCmd(x: WhoCmd): (c: Cmd)
    ensures NameOfCmd(c) == Who
  {
    CmdWho(x)
  }

  function NickCmdFromCmd(c: Cmd): (r: Result<NickCmd, ()>)
    ensures r.Ok? <==> NameOfCmd(c) == CmdName.Nick
  {
    match c
    case CmdNick(v) => Ok(v)
    case _ => Err(())
  }

  function SendCmdFromCmd(c: Cmd): (r: Result<SendCmd, ()>)
    ensures r.Ok? <==> NameOfCmd(c) == Send
  {
    match c
    case CmdSend(v) => Ok(v)
    case _ => Err(())
  }

  function WhoCmdFromCmd(c: Cmd): (r: Result<WhoCmd, ()>)
    ensures r.Ok? <==> NameOfCmd(c) == Who
  {
    match c
    case CmdWho(v) => Ok(v)
    case _ => Err(())
  }

  // ---------------------------------------------------------------------------
  // From and TryFrom for replies
  // ---------------------------------------------------------------------------

  function NickRplIntoRpl(x: NickRpl): (r: Rpl)
    ensures NameOfRpl(r) == CmdName.Nick
  {
    RplNick(x)
  }

  function SendRplIntoRpl(x: SendRpl): (r: Rpl)
    ensures NameOfRpl(r) == Send
  {
    RplSend(x)
  }

  function WhoRplIntoRpl(x: WhoRpl): (r: Rpl)
    ensures NameOfRpl(r) == Who
  {
    RplWho(x)
  }

  function NickRplFromRpl(r: Rpl): (res: Result<NickRpl, ()>)
    ensures res.Ok? <==> NameOfRpl(r) == CmdName.Nick
  {
    match r
    case RplNick(v) => Ok(v)
    case _ => Err(())
  }

  function SendRplFromRpl(r: Rpl): (res: Result<SendRpl, ()>)
    ensures res.Ok? <==> NameOfRpl(r) == Send
  {
    match r
    case RplSend(v) => Ok(v)
    case _ => Err(())
  }

  function WhoRplFromRpl(r: Rpl): (res: Result<WhoRpl, ()>)
    ensures res.Ok? <==> NameOfRpl(r) == Who
  {
    match r
    case RplWho(v) => Ok(v)
    case _ => Err(())
  }

  // ---------------------------------------------------------------------------
  // From and TryFrom for notifications
  // ---------------------------------------------------------------------------

  function JoinNtfIntoNtf(x: JoinNtf): (n: Ntf)
    ensures NameOfNtf(n) == Join
  {
    NtfJoin(x)
  }

  function NickNtfIntoNtf(x: NickNtf): (n: Ntf)
    ensures NameOfNtf(n) == NtfName.Nick
  {
    NtfNick(x)
  }

  function PartNtfIntoNtf(x: PartNtf): (n: Ntf)
    ensures NameOfNtf(n) == Part
  {
    NtfPart(x)
  }

  function JoinNtfFromNtf(n: Ntf): (r: Result<JoinNtf, ()>)
    ensures r.Ok? <==> NameOfNtf(n) == Join
  {
    match n
    case NtfJoin(v) => Ok(v)
    case _ => Err(())
  }

  function NickNtfFromNtf(n: Ntf): (r: Result<NickNtf, ()>)
    ensures r.Ok? <==> NameOfNtf(n) == NtfName.Nick
  {
    match n
    case NtfNick(v) => Ok(v)
    case _ => Err(())
  }

  function PartNtfFromNtf(n: Ntf): (r: Result<PartNtf, ()>)
    ensures r.Ok? <==> NameOfNtf(n) == Part
  {
    match n
    case NtfPart(v) => Ok(v)
    case _ => Err(())
  }

  // ---------------------------------------------------------------------------
  // Round trips
  // ---------------------------------------------------------------------------

  /** Projecting an injected command gives it back, and a successful
      projection is undone by the injection: the two are inverse on the
      command's own variant. */
  lemma CmdRoundTrip(c: Cmd, nick: NickCmd, send: SendCmd, who: WhoCmd)
    ensures NickCmdFromCmd(NickCmdIntoCmd(nick)) == Ok(nick)
    ensures SendCmdFromCmd(SendCmdIntoCmd(send)) == Ok(send)
    ensures WhoCmdFromCmd(WhoCmdIntoCmd(who)) == Ok(who)
    ensures NickCmdFromCmd(c).Ok? ==> NickCmdIntoCmd(NickCmdFromCmd(c).value) == c
    ensures SendCmdFromCmd(c).Ok? ==> SendCmdIntoCmd(SendCmdFromCmd(c).value) == c
    ensures WhoCmdFromCmd(c).Ok? ==> WhoCmdIntoCmd(WhoCmdFromCmd(c).value) == c
  {
  }

  /** A command of one variant does not project to the payload of another. */
  lemma CmdMismatch(nick: NickCmd, send: SendCmd, who: WhoCmd)
    ensures SendCmdFromCmd(NickCmdIntoCmd(nick)) == Err(())
    ensures WhoCmdFromCmd(NickCmdIntoCmd(nick)) == Err(())
    ensures NickCmdFromCmd(SendCmdIntoCmd(send)) == Err(())
    ensures WhoCmdFromCmd(SendCmdIntoCmd(send)) == Err(())
    ensures NickCmdFromCmd(WhoCmdIntoCmd(who)) == Err(())
    ensures SendCmdFromCmd(WhoCmdIntoCmd(who)) == Err(())
  {
  }

  /** Every command projects to exactly one payload type. */
  lemma CmdProjectsOnce(c: Cmd)
    ensures (if NickCmdFromCmd(c).Ok? then 1 else 0)
          + (if SendCmdFromCmd(c).Ok? then 1 else 0)
          + (if WhoCmdFromCmd(c).Ok? then 1 else 0) == 1
  {
  }

  lemma RplRoundTrip(r: Rpl, nick: NickRpl, send: SendRpl, who: WhoRpl)
    ensures NickRplFromRpl(NickRplIntoRpl(nick)) == Ok(nick)
    ensures SendRplFromRpl(SendRplIntoRpl(send)) == Ok(send)
    ensures WhoRplFromRpl(WhoRplIntoRpl(who)) == Ok(who)
    ensures NickRplFromRpl(r).Ok? ==> NickRplIntoRpl(NickRplFromRpl(r).value) == r
    ensures SendRplFromRpl(r).Ok? ==> SendRplIntoRpl(SendRplFromRpl(r).value) == r
    ensures WhoRplFromRpl(r).Ok? ==> WhoRplIntoRpl(WhoRplFromRpl(r).value) == r
  {
  }

  lemma RplMismatch(nick: NickRpl, send: SendRpl, who: WhoRpl)
    ensures SendRplFromRpl(NickRplIntoRpl(nick)) == Err(())
    ensures WhoRplFromRpl(NickRplIntoRpl(nick)) == Err(())
    ensures NickRplFromRpl(SendRplIntoRpl(send)) == Err(())
    ensures WhoRplFromRpl(SendRplIntoRpl(send)) == Err(())
    ensures NickRplFromRpl(WhoRplIntoRpl(who)) == Err(())
    ensures SendRplFromRpl(WhoRplIntoRpl(who)) == Err(())
  {
  }

  lemma NtfRoundTrip(n: Ntf, join: JoinNtf, nick: NickNtf, part: PartNtf)
    ensures JoinNtfFromNtf(JoinNtfIntoNtf(join)) == Ok(join)
    ensures NickNtfFromNtf(NickNtfIntoNtf(nick)) == Ok(nick)
    ensures PartNtfFromNtf(PartNtfIntoNtf(part)) == Ok(part)
    ensures JoinNtfFromNtf(n).Ok? ==> JoinNtfIntoNtf(JoinNtfFromNtf(n).value) == n
    ensures NickNtfFromNtf(n).Ok? ==> NickNtfIntoNtf(NickNtfFromNtf(n).value) == n
    ensures PartNtfFromNtf(n).Ok? ==> PartNtfIntoNtf(PartNtfFromNtf(n).value) == n
  {
  }

  lemma NtfMismatch(join: JoinNtf, nick: NickNtf, part: PartNtf)
    ensures NickNtfFromNtf(JoinNtfIntoNtf(join)) == Err(())
    ensures PartNtfFromNtf(JoinNtfIntoNtf(join)) == Err(())
    ensures JoinNtfFromNtf(NickNtfIntoNtf(nick)) == Err(())
    ensures PartNtfFromNtf(NickNtfIntoNtf(nick)) == Err(())
    ensures JoinNtfFromNtf(PartNtfIntoNtf(part)) == Err(())
    ensures NickNtfFromNtf(PartNtfIntoNtf(part)) == Err(())
  {
  }

  // ---------------------------------------------------------------------------
  // Commands and their replies
  // ---------------------------------------------------------------------------

  /** The reply that answers a command carries the command's name. */
  predicate Answers(r: Rpl, c: Cmd) {
    NameOfRpl(r) == NameOfCmd(c)
  }

  /** Cmd and Rpl share their variant names, so the reply a command expects
      is fixed by the command alone: a reply answers the command exactly
      when it projects to that command's reply type. */
  lemma ReplyPairing(c: Cmd, r: Rpl)
    ensures c.CmdNick? ==> (Answers(r, c) <==> NickRplFromRpl(r).Ok?)
    ensures c.CmdSend? ==> (Answers(r, c) <==> SendRplFromRpl(r).Ok?)
    ensures c.CmdWho? ==> (Answers(r, c) <==> WhoRplFromRpl(r).Ok?)
  {
  }

  /** Every command name is the name of some reply and the other way
      round. */
  lemma NamesShared(name: CmdName)
    ensures exists c: Cmd :: NameOfCmd(c) == name
    ensures exists r: Rpl :: NameOfRpl(r) == name
  {
    match name
    case Nick =>
      assert NameOfCmd(CmdNick(NickCmd(""))) == name;
      assert NameOfRpl(RplNick(NickRpl(""))) == name;
    case Send =>
      assert NameOfCmd(CmdSend(SendCmd(None, ""))) == name;
      assert NameOfRpl(RplSend(SendRpl(0))) == name;
    case Who =>
      assert NameOfCmd(CmdWho(WhoCmd)) == name;
      assert NameOfRpl(RplWho(WhoRpl([]))) == name;
  }
}
