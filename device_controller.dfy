/**
 * The device controller: for each inverter, log in to the inverter cloud,
 * send the on/off command, and poll the command's status until the inverter
 * acknowledges it or the attempt budget is spent.
 *
 * The cloud's answers are inputs: for each inverter, the reply to its login,
 * the reply to its command and the replies to successive status polls. Every
 * request the controller makes is recorded as a `Call`, so that the model can
 * say which requests were made, in which order and with which arguments.
 */
module DeviceController {
  import opened Wrappers
  import opened InverterRegistry

  /** Action codes of the command request. */
  const EnableCode: int := 6
  const DisableCode: int := 7

  /** The status poll makes at most this many attempts. */
  const MaxPollAttempts: nat := 60

  /** The status field value the cloud uses for success. */
  const StatusOk: string := "0"

  /** The cloud's reply to a login: unreachable (network, HTTP or JSON failure), or a status and a token. */
  datatype LoginReply = LoginUnreachable | LoginAnswer(status: string, token: string)

  /** The cloud's reply to a command: unreachable, or a status and the command id it assigned. */
  datatype CommandReply = CommandUnreachable | CommandAnswer(status: string, commandId: string)

  /** The cloud's reply to one status poll: unreachable, or a status and the command's result code, if any. */
  datatype StatusReply = StatusUnreachable | StatusAnswer(status: string, code: Option<int>)

  /** What the cloud answers one inverter's requests in one iteration. */
  datatype CloudReplies = CloudReplies(login: LoginReply, command: CommandReply, polls: seq<StatusReply>)

  /** A request made to the inverter cloud. */
  datatype Call =
    | LoginCall(username: string, password: string)
    | ToggleCall(token: string, dtuSn: string, inverterSn: string, action: int)
    | StatusCall(token: string, commandId: string)

  /** How one inverter's protocol ended. */
  datatype Outcome = LoginFailed | NoCommandId | PollExhausted | Acknowledged(attempts: nat)

  /** The token a login reply carries, if its status is success. */
  function LoginToken(reply: LoginReply): (token: Option<string>)
    ensures token.Some? <==> reply.LoginAnswer? && reply.status == StatusOk
    ensures token.Some? ==> token.value == reply.token
  {
    match reply
    case LoginUnreachable => None
    case LoginAnswer(status, token) => if status == StatusOk then Some(token) else None
  }

  /** The command id a command reply carries, if its status is success. */
  function IssuedCommandId(reply: CommandReply): (id: Option<string>)
    ensures id.Some? <==> reply.CommandAnswer? && reply.status == StatusOk
    ensures id.Some? ==> id.value == reply.commandId
  {
    match reply
    case CommandUnreachable => None
    case CommandAnswer(status, commandId) => if status == StatusOk then Some(commandId) else None
  }

  /** A value the original treats as present: not `None` and not the empty string. */
  predicate Present(v: Option<string>)
  {
    v.Some? && v.value != ""
  }

  /** A status reply acknowledges the command when both its status and its code are success. */
  predicate Acknowledges(reply: StatusReply)
  {
    reply.StatusAnswer? && reply.status == StatusOk && reply.code == Some(0)
  }

  /** The reply to poll attempt `k`; attempts past the given replies find the cloud unreachable. */
  function ReplyAt(polls: seq<StatusReply>, k: nat): StatusReply
  {
    if k < |polls| then polls[k] else StatusUnreachable
  }

  /** The first attempt, from `k` on and within the budget, whose reply acknowledges. */
  function AckFrom(polls: seq<StatusReply>, k: nat): (r: Option<nat>)
    ensures r.Some? ==> k <= r.value < MaxPollAttempts && Acknowledges(ReplyAt(polls, r.value))
    ensures r.Some? ==> forall m :: k <= m < r.value ==> !Acknowledges(ReplyAt(polls, m))
    ensures r.None? ==> forall m :: k <= m < MaxPollAttempts ==> !Acknowledges(ReplyAt(polls, m))
    decreases MaxPollAttempts - k
  {
    if k >= MaxPollAttempts then None
    else if Acknowledges(ReplyAt(polls, k)) then Some(k)
    else AckFrom(polls, k + 1)
  }

  /** The first acknowledging attempt within the budget, if any. */
  function FirstAck(polls: seq<StatusReply>): Option<nat>
  {
    AckFrom(polls, 0)
  }

  /** The number of status requests the poll makes: up to the first acknowledgement, or the whole budget. */
  function PollAttempts(polls: seq<StatusReply>): nat
  {
    if FirstAck(polls).Some? then FirstAck(polls).value + 1 else MaxPollAttempts
  }

  /**
   * The bounded status poll. It makes at most `MaxPollAttempts` requests and
   * stops at the first one that acknowledges; it reports success exactly
   * when such a request lies within the budget.
   */
  method CheckStatus(polls: seq<StatusReply>) returns (acknowledged: bool, attempts: nat)
    ensures 1 <= attempts <= MaxPollAttempts
    ensures acknowledged <==> exists k :: 0 <= k < MaxPollAttempts && Acknowledges(ReplyAt(polls, k))
    ensures acknowledged ==> Acknowledges(ReplyAt(polls, attempts - 1))
    ensures forall k :: 0 <= k < attempts - 1 ==> !Acknowledges(ReplyAt(polls, k))
    ensures !acknowledged ==> attempts == MaxPollAttempts
    ensures acknowledged == FirstAck(polls).Some? && attempts == PollAttempts(polls)
  {
    for k := 0 to MaxPollAttempts
      invariant forall m :: 0 <= m < k ==> !Acknowledges(ReplyAt(polls, m))
    {
      var reply := ReplyAt(polls, k);
      if Acknowledges(reply) {
        return true, k + 1;
      }
    }
    return false, MaxPollAttempts;
  }

  /** How one inverter's protocol ends, given the cloud's replies. */
  function DeviceOutcome(cloud: CloudReplies): (o: Outcome)
    ensures o.Acknowledged? ==> 1 <= o.attempts <= MaxPollAttempts
    ensures o.Acknowledged? ==> Acknowledges(ReplyAt(cloud.polls, o.attempts - 1))
    ensures o.Acknowledged? ==> forall k :: 0 <= k < o.attempts - 1 ==> !Acknowledges(ReplyAt(cloud.polls, k))
    ensures o == PollExhausted ==> forall k :: 0 <= k < MaxPollAttempts ==> !Acknowledges(ReplyAt(cloud.polls, k))
  {
    if !Present(LoginToken(cloud.login)) then LoginFailed
    else if !Present(IssuedCommandId(cloud.command)) then NoCommandId
    else if FirstAck(cloud.polls).None? then PollExhausted
    else Acknowledged(PollAttempts(cloud.polls))
  }

  /**
   * An inverter failed when its protocol did not end with an acknowledgement:
   * its login gave no token, its command gave no id, or none of the
   * `MaxPollAttempts` polls acknowledged.
   */
  predicate DeviceFailed(cloud: CloudReplies)
    ensures DeviceFailed(cloud) <==>
      || !Present(LoginToken(cloud.login))
      || !Present(IssuedCommandId(cloud.command))
      || forall k :: 0 <= k < MaxPollAttempts ==> !Acknowledges(ReplyAt(cloud.polls, k))
  {
    !DeviceOutcome(cloud).Acknowledged?
  }

  /** What an unreachable cloud answers: every request fails. */
  const NoReplies: CloudReplies := CloudReplies(LoginUnreachable, CommandUnreachable, [])

  /** The replies for the inverter at position `k` of the registry; past the given ones the cloud is unreachable. */
  function RepliesFor(cloud: seq<CloudReplies>, k: nat): CloudReplies
  {
    if k < |cloud| then cloud[k] else NoReplies
  }

  /**
   * The requests made for one inverter: the login; the command, only with a
   * token; the status polls, only with a command id, each with the token of
   * this login and the id of this command.
   */
  function DeviceCalls(inv: Inverter, cloud: CloudReplies, action: int): (r: seq<Call>)
    ensures 1 <= |r| <= 2 + MaxPollAttempts
    ensures r[0] == LoginCall(inv.username, inv.password)
  {
    var token := LoginToken(cloud.login);
    var id := IssuedCommandId(cloud.command);
    [LoginCall(inv.username, inv.password)]
    + (if Present(token) then [ToggleCall(token.value, inv.dtuSn, inv.inverterSn, action)] else [])
    + (if Present(token) && Present(id)
       then seq(PollAttempts(cloud.polls), _ => StatusCall(token.value, id.value))
       else [])
  }

  /** The requests made for the inverters, one inverter after the other, the k-th with the k-th replies. */
  function AllCalls(inverters: seq<Inverter>, cloud: seq<CloudReplies>, action: int): (r: seq<Call>)
    ensures |inverters| <= |r|
  {
    if inverters == [] then []
    else
      var n := |inverters| - 1;
      AllCalls(inverters[..n], cloud, action) + DeviceCalls(inverters[n], RepliesFor(cloud, n), action)
  }

  /** A failed login sends no command and polls nothing; a successful one always sends the command. */
  lemma LoginGatesCommand(inv: Inverter, cloud: CloudReplies, action: int)
    ensures (exists c :: c in DeviceCalls(inv, cloud, action) && c.ToggleCall?) <==> Present(LoginToken(cloud.login))
    ensures !Present(LoginToken(cloud.login)) ==> DeviceCalls(inv, cloud, action) == [LoginCall(inv.username, inv.password)]
  {
    var calls := DeviceCalls(inv, cloud, action);
    if Present(LoginToken(cloud.login)) {
      assert calls[1].ToggleCall?;
    }
  }

  /** The status is polled exactly when a command id was obtained, and never more often than the budget allows. */
  lemma {:induction false} CommandGatesPolling(inv: Inverter, cloud: CloudReplies, action: int)
    ensures (exists c :: c in DeviceCalls(inv, cloud, action) && c.StatusCall?)
        <==> Present(LoginToken(cloud.login)) && Present(IssuedCommandId(cloud.command))
    ensures |DeviceCalls(inv, cloud, action)| <= 2 + MaxPollAttempts
  {
    var calls := DeviceCalls(inv, cloud, action);
    var token := LoginToken(cloud.login);
    var id := IssuedCommandId(cloud.command);
    if Present(token) && Present(id) {
      assert calls[2].StatusCall?;
    } else {
      assert calls == [LoginCall(inv.username, inv.password)]
        + (if Present(token) then [ToggleCall(token.value, inv.dtuSn, inv.inverterSn, action)] else []);
    }
  }

  /**
   * Every request for an inverter carries what belongs to it: the command
   * goes with the token of this inverter's own login, its own serials and the
   * given action; every poll goes with that token and the id of this
   * inverter's own command.
   */
  lemma DeviceCallsUseOwnReplies(inv: Inverter, cloud: CloudReplies, action: int)
    ensures forall c :: c in DeviceCalls(inv, cloud, action) && c.ToggleCall? ==>
      cloud.login.LoginAnswer? && c == ToggleCall(cloud.login.token, inv.dtuSn, inv.inverterSn, action)
    ensures forall c :: c in DeviceCalls(inv, cloud, action) && c.StatusCall? ==>
      cloud.login.LoginAnswer? && cloud.command.CommandAnswer? &&
      c == StatusCall(cloud.login.token, cloud.command.commandId)
  {
  }

  /** Every command sent to any inverter in a pass carries that pass's action. */
  lemma {:induction false} AllCallsCarryAction(inverters: seq<Inverter>, cloud: seq<CloudReplies>, action: int)
    ensures forall c :: c in AllCalls(inverters, cloud, action) && c.ToggleCall? ==> c.action == action
  {
    if inverters != [] {
      var n := |inverters| - 1;
      AllCallsCarryAction(inverters[..n], cloud, action);
      DeviceCallsUseOwnReplies(inverters[n], RepliesFor(cloud, n), action);
    }
  }

  /** The login requests among `calls`, in order. */
  function Logins(calls: seq<Call>): seq<Call>
  {
    if calls == [] then []
    else (if calls[0].LoginCall? then [calls[0]] else []) + Logins(calls[1..])
  }

  lemma {:induction false} LoginsAppend(a: seq<Call>, b: seq<Call>)
    ensures Logins(a + b) == Logins(a) + Logins(b)
    decreases |a|
  {
    if a == [] {
      assert a + b == b;
    } else {
      var head := if a[0].LoginCall? then [a[0]] else [];
      assert (a + b)[0] == a[0];
      assert (a + b)[1..] == a[1..] + b;
      LoginsAppend(a[1..], b);
      calc {
        Logins(a + b);
        head + Logins(a[1..] + b);
        head + (Logins(a[1..]) + Logins(b));
        (head + Logins(a[1..])) + Logins(b);
      }
    }
  }

  lemma {:induction false} NoLogins(calls: seq<Call>)
    requires forall k :: 0 <= k < |calls| ==> !calls[k].LoginCall?
    ensures Logins(calls) == []
    decreases |calls|
  {
    if calls != [] {
      NoLogins(calls[1..]);
    }
  }

  /**
   * A failing inverter never stops the others: every inverter, whatever
   * happened to the ones before it, gets exactly one login, in registry order.
   */
  lemma {:induction false} EveryInverterLogsIn(inverters: seq<Inverter>, cloud: seq<CloudReplies>, action: int)
    ensures |Logins(AllCalls(inverters, cloud, action))| == |inverters|
    ensures forall k :: 0 <= k < |inverters| ==>
      Logins(AllCalls(inverters, cloud, action))[k] == LoginCall(inverters[k].username, inverters[k].password)
  {
    if inverters != [] {
      var n := |inverters| - 1;
      var front := inverters[..n];
      var last := inverters[n];
      var calls := DeviceCalls(last, RepliesFor(cloud, n), action);
      EveryInverterLogsIn(front, cloud, action);
      LoginsAppend(AllCalls(front, cloud, action), calls);
      LoginsAppend([calls[0]], calls[1..]);
      assert [calls[0]] + calls[1..] == calls;
      NoLogins(calls[1..]);
      assert Logins(calls) == [LoginCall(last.username, last.password)];
    }
  }

  /**
   * One inverter's protocol: log in; without a token, stop; send the
   * command; without a command id, stop; otherwise poll its status.
   */
  method DriveInverter(inv: Inverter, replies: CloudReplies, action: int) returns (failed: bool, calls: seq<Call>)
    ensures failed == DeviceFailed(replies)
    ensures calls == DeviceCalls(inv, replies, action)
  {
    calls := [LoginCall(inv.username, inv.password)];
    var token := LoginToken(replies.login);
    if !Present(token) {
      return true, calls;
    }
    calls := calls + [ToggleCall(token.value, inv.dtuSn, inv.inverterSn, action)];
    var commandId := IssuedCommandId(replies.command);
    if !Present(commandId) {
      return true, calls;
    }
    var success, attempts := CheckStatus(replies.polls);
    calls := calls + seq(attempts, _ => StatusCall(token.value, commandId.value));
    failed := !success;
  }

  /**
   * The device loop: drive every inverter in turn with `action` and the
   * replies the cloud gives at its position, recording each request, and
   * report whether any of them failed. A failure does not end the loop.
   */
  method DriveInverters(inverters: seq<Inverter>, cloud: seq<CloudReplies>, action: int)
    returns (anyFailure: bool, calls: seq<Call>)
    ensures anyFailure <==> exists k :: 0 <= k < |inverters| && DeviceFailed(RepliesFor(cloud, k))
    ensures calls == AllCalls(inverters, cloud, action)
  {
    anyFailure := false;
    calls := [];
    for i := 0 to |inverters|
      invariant anyFailure <==> exists k :: 0 <= k < i && DeviceFailed(RepliesFor(cloud, k))
      invariant calls == AllCalls(inverters[..i], cloud, action)
    {
      assert inverters[..i + 1][..i] == inverters[..i];
      var failed, deviceCalls := DriveInverter(inverters[i], RepliesFor(cloud, i), action);
      calls := calls + deviceCalls;
      if failed {
        anyFailure := true;
      }
    }
    assert inverters[..|inverters|] == inverters;
  }
}
