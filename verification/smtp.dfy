/** The SMTP client, smtp/smtp.c, as a machine driven by callbacks. */
module Smtp {
  import C = CramMd5
  import opened Bytes

  datatype State = Failed | Ready | Resolve | Connect | Greet | Challenge | Auth | From | To | Data | Quit | Close

  /** What passes on the wire in one session, in order; a received line is without its CR LF. */
  datatype Entry = Sent(text: string) | Got(line: string)

  /** The text of a message and its envelope. */
  datatype Mail = Mail(sender: string, rcpt: string, subj: string, body: string) {
    /** The sizes that `smtp_send` admits. */
    predicate Fits() {
      |sender| + 1 <= 128 && |rcpt| + 1 <= 128 && |subj| + 1 <= 128 && |body| + 1 <= 512
    }

    /** The fields are copied one after the other, up to the first that does not fit. */
    function CopyFrom(m: Mail): Mail {
      if |m.sender| + 1 > 128 then this
      else if |m.rcpt| + 1 > 128 then this.(sender := m.sender)
      else if |m.subj| + 1 > 128 then this.(sender := m.sender, rcpt := m.rcpt)
      else if |m.body| + 1 > 512 then this.(sender := m.sender, rcpt := m.rcpt, subj := m.subj)
      else m
    }
  }

  /** The stored account; an empty host means that there is none. */
  datatype Account = Account(host: string, user: seq<byte>, pass: seq<byte>) {
    predicate Ok() { |pass| < 64 }
  }

  const OUTBUF: nat := 1024
  const INBUF: nat := 2048

  /** Characters and bytes. */
  function Octets(s: string): seq<byte> {
    seq(|s|, i requires 0 <= i < |s| => (s[i] as int % 256) as byte)
  }

  function Chars(b: seq<byte>): string {
    seq(|b|, i requires 0 <= i < |b| => b[i] as char)
  }

  /** The base64 text on a challenge line. */
  function Encoded(line: string): seq<byte> {
    if |line| < 4 then [] else Octets(line[4..])
  }

  /** A challenge line that can be answered. */
  predicate Answerable(acct: Account, line: string) {
    C.Decodable(Encoded(line)) && |acct.user| + 33 <= C.RIGHT
  }

  function Answer(acct: Account, line: string): string {
    if Answerable(acct, line) then Chars(C.Answer(Encoded(line), acct.user, acct.pass)) else ""
  }

  /** The eight commands of a session; the third answers the challenge on `line`. */
  function Command(k: nat, m: Mail, acct: Account, line: string): string
    requires k < 8
  {
    if k == 0 then "ehlo [127.0.1.1]\r\n"
    else if k == 1 then "AUTH CRAM-MD5\r\n"
    else if k == 2 then Answer(acct, line)
    else if k == 3 then "mail FROM:<" + m.sender + ">\r\n"
    else if k == 4 then "rcpt TO:<" + m.rcpt + ">\r\n"
    else if k == 5 then "data\r\n"
    else if k == 6 then
      "From: " + m.sender + "\r\nTo: " + m.rcpt + "\r\nSubject: " + m.subj + "\r\n\r\n" + m.body + "\r\n.\r\n"
    else "quit\r\n"
  }

  /** The reply that must come before command `k`, or after the last. */
  function Reply(k: nat): string
    requires 1 <= k <= 8
  {
    if k == 1 then "250 " else if k == 2 then "334 " else if k == 3 then "235 " else if k == 4 then "250 "
    else if k == 5 then "250 " else if k == 6 then "354 " else if k == 7 then "250 " else "221 "
  }

  /** `os_strncmp(p, line, |p|) == 0` for a line that does not end earlier. */
  predicate Starts(p: string, line: string) {
    |p| <= |line| && line[..|p|] == p
  }

  /** A line of the greeting that is neither an error nor the last one. */
  predicate Greeting(line: string) {
    (Starts("220", line) || Starts("250", line)) && !Starts("250 ", line)
  }

  /** How many commands were sent in a state. */
  function Stage(s: State): nat
    requires s != Failed
  {
    match s
    case Greet => 1
    case Challenge => 2
    case Auth => 3
    case From => 4
    case To => 5
    case Data => 6
    case Quit => 7
    case Close => 8
    case Ready => 0
    case Resolve => 0
    case Connect => 0
  }

  /** The state after the expected reply. */
  function Next(s: State): (t: State)
    requires s in {Greet, Challenge, Auth, From, To, Data, Quit}
    ensures t != Failed && Stage(t) == Stage(s) + 1
  {
    match s
    case Greet => Challenge
    case Challenge => Auth
    case Auth => From
    case From => To
    case To => Data
    case Data => Quit
    case _ => Close
  }

  /** `os_strstr(s, "\r\n")`: where the first line ends, or the length if it does not. */
  function LineEnd(s: string): (k: nat)
    ensures k <= |s|
    ensures k < |s| ==> k + 2 <= |s| && s[k] == '\r' && s[k + 1] == '\n'
    ensures forall j :: 0 <= j < k && j + 1 < |s| ==> !(s[j] == '\r' && s[j + 1] == '\n')
  {
    if |s| < 2 then |s| else if s[0] == '\r' && s[1] == '\n' then 0 else 1 + LineEnd(s[1..])
  }

  predicate HasLine(s: string) { LineEnd(s) < |s| }

  function Line(s: string): string { s[..LineEnd(s)] }

  /** The buffer after a line was taken off. */
  function Beyond(s: string): (t: string)
    requires HasLine(s)
    ensures |t| < |s|
  {
    s[LineEnd(s) + 2..]
  }

  /**
   * The client between two callbacks: its state, the input buffer, the message, whether a connection delivers data,
   * and which callbacks are still to come.
   */
  datatype Net = Net(state: State, inbuf: string, mail: Mail, online: bool, dns: bool, conn: bool)

  datatype Dns = Found | InProgress | DnsError

  /** What can happen, with what the calls of the handler return. */
  datatype Event =
    | SendMail(m: Mail, dns: Dns, connects: bool)
    | Resolved(found: bool, connects: bool)
    | Connected(disconn: bool, recv: bool, sent: bool, sends: bool)
    | Arrived(data: string, sends: bool)
    | Hangup

  /** Callbacks come only after their request, and data only over a connection. */
  predicate Legal(n: Net, e: Event) {
    match e
    case SendMail(_, _, _) => true
    case Resolved(_, _) => n.dns
    case Connected(_, _, _, _) => n.conn
    case Arrived(_, _) => n.online
    case Hangup => n.online
  }

  /** `smtp_send_connect`; it clears the connection structure, and with it the callbacks of an older connection. */
  function StartConnect(n: Net, connects: bool): Net {
    n.(state := if connects then Connect else Failed, online := false, conn := connects)
  }

  /** `smtp_send_conn_cb` registers three callbacks, the second of which delivers data, and then sends. */
  function Greeted(n: Net, disconn: bool, recv: bool, sent: bool, sends: bool): Net {
    n.(conn := false, online := n.online || (disconn && recv),
       state := if disconn && recv && sent && sends then Greet else Failed)
  }

  /** `smtp_send_greet`: lines up to the last of the reply to ehlo. */
  function AfterGreeting(n: Net, sends: bool): (n': Net)
    ensures n'.state in {n.state, Challenge, Failed} && n' == n.(state := n'.state, inbuf := n'.inbuf)
    decreases |n.inbuf|
  {
    if !HasLine(n.inbuf) then n
    else if !(Starts("220", Line(n.inbuf)) || Starts("250", Line(n.inbuf))) then n.(state := Failed)
    else
      var n1 := n.(inbuf := Beyond(n.inbuf));
      if Starts("250 ", Line(n.inbuf)) then n1.(state := if sends then Challenge else Failed)
      else if n1.inbuf == "" then n1 else AfterGreeting(n1, sends)
  }

  /** The handler of the current state looks at the buffer. */
  function Handled(acct: Account, n: Net, sends: bool): Net {
    if n.state == Greet then AfterGreeting(n, sends)
    else if n.state in {Failed, Ready, Resolve, Connect} || !HasLine(n.inbuf) then n
    else if !Starts(Reply(Stage(n.state)), Line(n.inbuf)) then n.(state := Failed)
    else if n.state == Challenge && !C.Decodable(Encoded(Line(n.inbuf))) then n.(state := Failed)
    else
      var n1 := n.(inbuf := Beyond(n.inbuf));
      if n.state == Close then n1.(state := Ready)
      else if !sends || (n.state == Challenge && |acct.user| + 33 > C.RIGHT) then n1.(state := Failed)
      else n1.(state := Next(n.state))
  }

  function Step(acct: Account, n: Net, e: Event): Net {
    match e
    case SendMail(m, dns, connects) =>
      if acct.host == "" || n.state != Ready then n
      else if !m.Fits() then n.(mail := n.mail.CopyFrom(m))
      else
        var n1 := n.(mail := m, state := Resolve);
        (match dns
         case Found => StartConnect(n1, connects)
         case InProgress => n1.(dns := true)
         case DnsError => n1.(state := Failed))
    case Resolved(found, connects) =>
      var n1 := n.(dns := false);
      if found then StartConnect(n1, connects) else n1.(state := Failed)
    case Connected(disconn, recv, sent, sends) => Greeted(n, disconn, recv, sent, sends)
    case Arrived(data, sends) =>
      if |n.inbuf| + |data| >= INBUF then n.(state := Failed) else Handled(acct, n.(inbuf := n.inbuf + data), sends)
    case Hangup => n.(online := false)
  }

  function Run(acct: Account, n: Net, es: seq<Event>): Net
    decreases |es|
  {
    if es == [] then n else Run(acct, Step(acct, n, es[0]), es[1..])
  }

  predicate LegalRun(acct: Account, n: Net, es: seq<Event>)
    decreases |es|
  {
    es == [] || (Legal(n, es[0]) && LegalRun(acct, Step(acct, n, es[0]), es[1..]))
  }

  /** Once failed with nothing pending, always failed. */
  lemma {:induction false} StaysFailed(acct: Account, n: Net, es: seq<Event>)
    requires n.state == Failed && !n.dns && !n.conn && LegalRun(acct, n, es)
    ensures Run(acct, n, es).state == Failed
    decreases |es|
  {
    if es != [] { StaysFailed(acct, Step(acct, n, es[0]), es[1..]); }
  }

  /** Failure is final for every further run if and only if no name or connect request is still to be answered. */
  ghost predicate FinalFailure(acct: Account, n: Net) {
    forall es :: LegalRun(acct, n, es) ==> Run(acct, n, es).state == Failed
  }

  lemma FailureFinalIff(acct: Account, n: Net)
    requires n.state == Failed
    ensures FinalFailure(acct, n) <==> !n.dns && !n.conn
  {
    if !n.dns && !n.conn {
      forall es | LegalRun(acct, n, es) ensures Run(acct, n, es).state == Failed {
        StaysFailed(acct, n, es);
      }
    } else {
      var e := if n.dns then Resolved(true, true) else Connected(true, true, true, true);
      assert Run(acct, n, [e]) == Run(acct, Step(acct, n, e), []) == Step(acct, n, e);
      assert LegalRun(acct, n, [e]) by { assert [e][1..] == []; }
      assert Run(acct, n, [e]).state != Failed;
    }
  }

  /** The last two entries: the reply that command `k` needs, and the command. */
  predicate Exchange(reply: Entry, sent: Entry, k: nat, m: Mail, acct: Account)
    requires 1 <= k < 8
  {
    reply.Got? && Starts(Reply(k), reply.line) && (k == 2 ==> Answerable(acct, reply.line))
    && sent == Sent(Command(k, m, acct, reply.line))
  }

  /**
   * The log of a session that has sent `k` commands and keeps to the protocol: greeting lines may come after the
   * first command, and each later command comes directly after the reply that it needs.
   */
  predicate Proper(log: seq<Entry>, k: nat, m: Mail, acct: Account)
    requires k <= 8
    decreases |log|
  {
    var n := |log|;
    if k == 0 then log == []
    else if k == 1 then
      n >= 1 && if n == 1 then log[0] == Sent(Command(0, m, acct, ""))
                else log[n - 1].Got? && Greeting(log[n - 1].line) && Proper(log[..n - 1], 1, m, acct)
    else n >= 2 && Exchange(log[n - 2], log[n - 1], k - 1, m, acct) && Proper(log[..n - 2], k - 1, m, acct)
  }

  /** Commands of a log, in order. */
  function Commands(log: seq<Entry>): seq<string> {
    if log == [] then []
    else Commands(log[..|log| - 1]) + if log[|log| - 1].Sent? then [log[|log| - 1].text] else []
  }

  /** The first `k` commands, with the third answering the challenge on `line`. */
  function Script(k: nat, m: Mail, acct: Account, line: string): seq<string>
    requires k <= 8
  {
    if k == 0 then [] else Script(k - 1, m, acct, line) + [Command(k - 1, m, acct, line)]
  }

  /** Only the third command depends on the challenge. */
  lemma {:induction false} ScriptLine(k: nat, m: Mail, acct: Account, a: string, b: string)
    requires k <= 2
    ensures Script(k, m, acct, a) == Script(k, m, acct, b)
  {
    if k > 0 { ScriptLine(k - 1, m, acct, a, b); }
  }

  /** A proper log sends exactly the first `k` commands of the script, for the challenge that it received. */
  lemma {:induction false} ProperCommands(log: seq<Entry>, k: nat, m: Mail, acct: Account) returns (line: string)
    requires k <= 8 && Proper(log, k, m, acct)
    ensures Commands(log) == Script(k, m, acct, line)
    ensures k >= 3 ==> Got(line) in log && Starts("334 ", line) && Answerable(acct, line)
    decreases |log|
  {
    hide Answer, Answerable, Command, Starts, Reply;
    line := "";
    var n := |log|;
    if k == 1 && n == 1 {
      assert log[..0] == [] && Commands(log[..0]) == [] == Script(0, m, acct, line);
    } else if k == 1 {
      line := ProperCommands(log[..n - 1], 1, m, acct);
    } else if k > 1 {
      var before := ProperCommands(log[..n - 2], k - 1, m, acct);
      line := MoreCommands(log, k, m, acct, before);
    }
  }

  lemma MoreCommands(log: seq<Entry>, k: nat, m: Mail, acct: Account, before: string) returns (line: string)
    requires 2 <= k <= 8 && |log| >= 2 && Exchange(log[|log| - 2], log[|log| - 1], k - 1, m, acct)
    requires Commands(log[..|log| - 2]) == Script(k - 1, m, acct, before)
    requires k >= 4 ==> Got(before) in log[..|log| - 2] && Starts("334 ", before) && Answerable(acct, before)
    ensures Commands(log) == Script(k, m, acct, line)
    ensures k >= 3 ==> Got(line) in log && Starts("334 ", line) && Answerable(acct, line)
  {
    hide Answer, Answerable, Command, Starts, Proper;
    var n := |log|;
    TwoMore(log);
    if k == 3 {
      line := log[n - 2].line;
      ScriptLine(2, m, acct, before, line);
    } else {
      line := before;
      CommandLine(k - 1, m, acct, log[n - 2].line, line);
    }
  }

  lemma TwoMore(log: seq<Entry>)
    requires |log| >= 2 && log[|log| - 2].Got? && log[|log| - 1].Sent?
    ensures Commands(log) == Commands(log[..|log| - 2]) + [log[|log| - 1].text]
  {
    assert log[..|log| - 1][..|log| - 2] == log[..|log| - 2];
  }

  lemma CommandLine(k: nat, m: Mail, acct: Account, a: string, b: string)
    requires k < 8 && k != 2
    ensures Command(k, m, acct, a) == Command(k, m, acct, b)
  {
  }

  /** A failed session: a proper log, perhaps with one more line received. */
  ghost predicate Broken(log: seq<Entry>, m: Mail, acct: Account) {
    exists k :: 0 <= k <= 8 && BrokenAt(log, k, m, acct)
  }

  predicate BrokenAt(log: seq<Entry>, k: nat, m: Mail, acct: Account)
    requires k <= 8
  {
    Proper(log, k, m, acct) || (log != [] && log[|log| - 1].Got? && Proper(log[..|log| - 1], k, m, acct))
  }

  lemma ProperReply(log: seq<Entry>, k: nat, m: Mail, acct: Account, line: string)
    requires k <= 8 && Proper(log, k, m, acct)
    ensures Broken(log, m, acct) && Broken(log + [Got(line)], m, acct)
  {
    hide Proper;
    assert (log + [Got(line)])[..|log|] == log;
    assert BrokenAt(log, k, m, acct) && BrokenAt(log + [Got(line)], k, m, acct);
  }

  lemma ProperNext(log: seq<Entry>, k: nat, m: Mail, acct: Account, line: string)
    requires 1 <= k < 8 && Proper(log, k, m, acct) && Starts(Reply(k), line) && (k == 2 ==> Answerable(acct, line))
    ensures Proper(log + [Got(line), Sent(Command(k, m, acct, line))], k + 1, m, acct)
  {
    hide Reply, Command, Answerable;
    assert (log + [Got(line), Sent(Command(k, m, acct, line))])[..|log|] == log;
  }

  lemma ProperGreeting(log: seq<Entry>, m: Mail, acct: Account, line: string)
    requires Proper(log, 1, m, acct) && Greeting(line)
    ensures Proper(log + [Got(line)], 1, m, acct)
  {
    hide Command, Greeting;
    assert (log + [Got(line)])[..|log|] == log;
  }

  lemma NothingSent(m: Mail, acct: Account)
    ensures Proper([], 0, m, acct) && Broken([], m, acct)
  {
    assert BrokenAt([], 0, m, acct);
  }

  /** What `os_snprintf` leaves in the output buffer. */
  function Printed(text: string): string {
    if |text| < OUTBUF then text else text[..OUTBUF - 1]
  }

  /** The number of bytes that each handler passes to `espconn_send`. */
  function SendLength(k: nat, m: Mail): nat {
    if k == 0 then 18
    else if k == 1 then 15
    else if k == 3 then |m.sender| + 14
    else if k == 4 then |m.rcpt| + 12
    else if k == 6 then 6 + |m.sender| + 6 + |m.rcpt| + 11 + |m.subj| + 4 + |m.body| + 5
    else 6
  }

  /** The lengths are right and nothing is cut off. */
  lemma LengthsExact(k: nat, m: Mail, acct: Account, line: string)
    requires k < 8 && k != 2 && m.Fits()
    ensures var text := Command(k, m, acct, line);
            SendLength(k, m) == |text| == |Printed(text)| && Printed(text)[..SendLength(k, m)] == text
  {
    var text := Command(k, m, acct, line);
    assert text[..|text|] == text;
  }

  class Client {
    const acct: Account
    var state: State
    var mail: Mail
    var inbuf: string

    /** Whether a connection delivers data, and the requests whose callback is still to come. */
    ghost var online: bool
    ghost var dnsPending: bool
    ghost var connPending: bool
    /** The session as it went. */
    ghost var letter: Mail
    ghost var log: seq<Entry>

    ghost function Abs(): Net
      reads this
    {
      Net(state, inbuf, mail, online, dnsPending, connPending)
    }

    ghost predicate Valid()
      reads this
    {
      acct.Ok() && letter.Fits() && (dnsPending || connPending ==> log == [] && mail == letter)
      && !(dnsPending && connPending)
      && (dnsPending ==> state == Resolve || state == Failed)
      && (connPending ==> state == Connect || state == Failed)
      && (state != Ready && state != Failed ==> mail == letter)
      && if state == Failed then Broken(log, letter, acct)
         else if state == Ready then log == [] || Finished()
         else Proper(log, Stage(state), letter, acct)
    }

    /** A session that went all the way: the last line was a 221. */
    ghost predicate Finished()
      reads this
    {
      log != [] && log[|log| - 1].Got? && Starts(Reply(8), log[|log| - 1].line)
      && Proper(log[..|log| - 1], 8, letter, acct)
    }

    /** `smtp_init` */
    constructor (acct: Account)
      requires acct.Ok()
      ensures Valid() && this.acct == acct && log == []
      ensures Abs() == Net(Ready, "", Mail("", "", "", ""), false, false, false)
    {
      this.acct := acct;
      state, inbuf := Ready, "";
      mail, letter := Mail("", "", "", ""), Mail("", "", "", "");
      log, online, dnsPending, connPending := [], false, false, false;
    }

    /**
     * `smtp_send`; `dns` and `connects` are what the calls below return. A session that starts has a log of its own.
     */
    method Send(m: Mail, dns: Dns, connects: bool)
      requires Valid()
      modifies this
      ensures Valid() && Abs() == Step(acct, old(Abs()), SendMail(m, dns, connects))
      ensures if acct.host != "" && old(state) == Ready && m.Fits() then log == [] && letter == m
              else log == old(log) && letter == old(letter)
    {
      hide Proper, Broken, Reply, Handled, Greeted;
      if acct.host == "" {
        return;
      }
      if state != Ready {
        return;
      }
      if |m.sender| + 1 > 128 {
        return;
      }
      mail := mail.(sender := m.sender);
      if |m.rcpt| + 1 > 128 {
        return;
      }
      mail := mail.(rcpt := m.rcpt);
      if |m.subj| + 1 > 128 {
        return;
      }
      mail := mail.(subj := m.subj);
      if |m.body| + 1 > 512 {
        return;
      }
      mail := mail.(body := m.body);
      letter, log := mail, [];
      state := Resolve;
      NothingSent(letter, acct);
      match dns
      case Found => Dial(connects);
      case InProgress => dnsPending := true;
      case DnsError => state := Failed;
    }

    /** `smtp_send_connect` */
    method Dial(connects: bool)
      requires acct.Ok() && letter.Fits() && log == [] && mail == letter && !dnsPending && !connPending
      modifies this`state, this`connPending, this`online
      ensures Valid() && Abs() == StartConnect(old(Abs()), connects)
    {
      NothingSent(letter, acct);
      state := Connect;
      online := false;
      if !connects {
        state := Failed;
        return;
      }
      connPending := true;
    }

    /** `smtp_send_dns` */
    method OnResolved(found: bool, connects: bool)
      requires Valid() && dnsPending
      modifies this
      ensures Valid() && Abs() == Step(acct, old(Abs()), Resolved(found, connects))
      ensures log == [] && letter == old(letter)
    {
      dnsPending := false;
      if !found {
        NothingSent(letter, acct);
        state := Failed;
      } else {
        Dial(connects);
      }
    }

    /** `smtp_send_conn_cb` */
    method OnConnected(disconn: bool, recv: bool, sent: bool, sends: bool)
      requires Valid() && connPending
      modifies this
      ensures Valid() && Abs() == Step(acct, old(Abs()), Connected(disconn, recv, sent, sends))
      ensures letter == old(letter) && log == if state == Greet then [Sent(Command(0, letter, acct, ""))] else []
    {
      NothingSent(letter, acct);
      connPending := false;
      if !disconn {
        state := Failed;
        return;
      }
      if !recv {
        state := Failed;
        return;
      }
      online := true;
      if !sent {
        state := Failed;
        return;
      }
      state := Greet;
      if !sends {
        state := Failed;
        return;
      }
      LengthsExact(0, mail, acct, "");
      log := [Sent(Printed(Command(0, mail, acct, ""))[..SendLength(0, mail)])];
    }

    /** The connection is gone. */
    ghost method OnHangup()
      requires Valid() && online
      modifies this`online
      ensures Valid() && Abs() == Step(acct, old(Abs()), Hangup)
    {
      hide Proper, Broken, Reply, Command;
      online := false;
    }

    /** `smtp_send_recv_cb`; `sends` is what the send of the handler returns. */
    method OnArrived(data: string, sends: bool)
      requires Valid() && online
      modifies this
      ensures Valid() && Abs() == Step(acct, old(Abs()), Arrived(data, sends))
      ensures old(log) <= log && letter == old(letter)
      ensures state == Ready && old(state) != Ready ==> old(state) == Close && Finished()
    {
      hide Proper, Broken, Reply, Command, Handled, Greeted, StartConnect;
      if |inbuf| + |data| >= INBUF {
        Fail();
        return;
      }
      inbuf := inbuf + data;
      Dispatch(sends);
    }

    /** The handler of the current state. */
    method Dispatch(sends: bool)
      requires Valid()
      modifies this`state, this`log, this`inbuf
      ensures Valid() && Abs() == Handled(acct, old(Abs()), sends) && old(log) <= log
      ensures state == Ready && old(state) != Ready ==> old(state) == Close && Finished()
    {
      hide Proper, Broken, Reply, Command, Handled;
      HandledCases(acct, Abs(), sends);
      if state == Greet {
        OnGreet(sends);
      } else if state == Challenge {
        OnChallenge(sends);
      } else if state == Auth || state == From || state == To || state == Data || state == Quit {
        OnReply(sends);
      } else if state == Close {
        OnClose();
      }
    }

    /** Every error ends here. */
    method Fail()
      requires Valid()
      modifies this`state
      ensures Valid() && state == Failed
    {
      hide Proper, Broken, Reply, Command;
      if state == Ready {
        if log == [] {
          NothingSent(letter, acct);
        } else {
          ProperReply(log[..|log| - 1], 8, letter, acct, log[|log| - 1].line);
          assert log == log[..|log| - 1] + [Got(log[|log| - 1].line)];
        }
      } else if state != Failed {
        ProperReply(log, Stage(state), letter, acct, "");
      }
      state := Failed;
    }

    /** A line that is not what it should be. */
    method Reject()
      requires Valid() && state !in {Failed, Ready, Resolve, Connect}
      modifies this`state, this`log
      ensures Valid() && state == Failed && old(log) <= log
    {
      hide Proper, Broken, Reply, Command;
      ProperReply(log, Stage(state), letter, acct, Line(inbuf));
      log := log + [Got(Line(inbuf))];
      state := Failed;
    }

    /** `smtp_send_greet` */
    method OnGreet(sends: bool)
      requires Valid() && state == Greet
      modifies this`state, this`log, this`inbuf
      ensures Valid() && Abs() == AfterGreeting(old(Abs()), sends) && old(log) <= log
    {
      hide Proper, Broken, Reply, Command, Starts, LineEnd, AfterGreeting;
      Texts();
      ghost var start := Abs();
      while true
        invariant Valid() && state == Greet && old(log) <= log && Abs() == start.(inbuf := inbuf)
        invariant AfterGreeting(Abs(), sends) == AfterGreeting(start, sends)
        decreases |inbuf|
      {
        GreetingStep(Abs(), sends);
        if !HasLine(inbuf) {
          return;
        }
        var line := Line(inbuf);
        if !(Starts("220", line) || Starts("250", line)) {
          Reject();
          return;
        }
        if Starts("250 ", line) {
          break;
        }
        GreetingLine(line);
        inbuf := Beyond(inbuf);
        if inbuf == "" {
          return;
        }
      }
      Accept(sends);
    }

    /** A line that goes on. */
    ghost method GreetingLine(line: string)
      requires Valid() && state == Greet && Greeting(line)
      modifies this`log
      ensures Valid() && log == old(log) + [Got(line)]
    {
      hide Proper, Broken, Greeting;
      ProperGreeting(log, letter, acct, line);
      log := log + [Got(line)];
    }

    /** The expected reply: on to the next state, with its command. */
    method Accept(sends: bool)
      requires Valid() && state in {Greet, Auth, From, To, Data, Quit}
      requires HasLine(inbuf) && Starts(Reply(Stage(state)), Line(inbuf))
      modifies this`state, this`log, this`inbuf
      ensures Valid() && state == (if sends then Next(old(state)) else Failed) && inbuf == Beyond(old(inbuf))
      ensures old(log) <= log
    {
      hide Command, Printed, SendLength, Proper, Reply, Broken, Starts, LineEnd;
      var line := Line(inbuf);
      var k := Stage(state);
      ProperReply(log, k, letter, acct, line);
      ProperNext(log, k, letter, acct, line);
      inbuf := Beyond(inbuf);
      state := Next(state);
      if !sends {
        log := log + [Got(line)];
        state := Failed;
        return;
      }
      LengthsExact(k, mail, acct, line);
      log := log + [Got(line), Sent(Printed(Command(k, mail, acct, line))[..SendLength(k, mail)])];
    }

    /** `smtp_send_challenge` */
    method OnChallenge(sends: bool)
      requires Valid() && state == Challenge
      modifies this`state, this`log, this`inbuf
      ensures Valid() && Abs() == Handled(acct, old(Abs()), sends) && old(log) <= log
    {
      hide Proper, Broken, Reply, Command, LineEnd, C.Answer, C.Decodable;
      Texts();
      if !HasLine(inbuf) {
        return;
      }
      var line := Line(inbuf);
      if !Starts("334 ", line) {
        Reject();
        return;
      }
      var outbuf := new byte[OUTBUF](_ => 0);
      var n := C.Respond(Encoded(line), acct.user, acct.pass, outbuf);
      if n == -1 {
        Reject();
        return;
      }
      ProperReply(log, 2, letter, acct, line);
      inbuf := Beyond(inbuf);
      state := Auth;
      if n < 0 || !sends {
        log := log + [Got(line)];
        state := Failed;
        return;
      }
      ProperNext(log, 2, letter, acct, line);
      AnswerIs(letter, acct, line);
      log := log + [Got(line), Sent(Chars(outbuf[..n]))];
    }

    /** `smtp_send_auth`, `smtp_send_from`, `smtp_send_to`, `smtp_send_data` and `smtp_send_quit`. */
    method OnReply(sends: bool)
      requires Valid() && state in {Auth, From, To, Data, Quit}
      modifies this`state, this`log, this`inbuf
      ensures Valid() && Abs() == Handled(acct, old(Abs()), sends) && old(log) <= log
    {
      hide Proper, Broken, Reply, Command, Starts, LineEnd;
      if !HasLine(inbuf) {
        return;
      }
      if !Starts(Reply(Stage(state)), Line(inbuf)) {
        Reject();
        return;
      }
      Accept(sends);
    }

    /** `smtp_send_close` */
    method OnClose()
      requires Valid() && state == Close
      modifies this`state, this`log, this`inbuf
      ensures Valid() && Abs() == Handled(acct, old(Abs()), true) && old(log) <= log
      ensures state == Ready ==> Finished()
    {
      hide Proper, Broken, Reply, Command, Starts, LineEnd;
      Texts();
      if !HasLine(inbuf) {
        return;
      }
      var line := Line(inbuf);
      if !Starts("221 ", line) {
        Reject();
        return;
      }
      inbuf := Beyond(inbuf);
      log := log + [Got(line)];
      assert log[..|log| - 1] == old(log);
      state := Ready;
    }

    /** At any time the commands of the session are the first few of the script. */
    lemma KeepsToScript() returns (k: nat, line: string)
      requires Valid()
      ensures k <= 8 && Commands(log) == Script(k, letter, acct, line)
      ensures k >= 3 ==> Got(line) in log && Starts("334 ", line) && Answerable(acct, line)
      ensures state !in {Failed, Ready} ==> k == Stage(state)
    {
      hide Proper, Command, Reply, Answerable;
      if state == Ready {
        if log == [] {
          k, line := 0, "";
        } else {
          k := 8;
          line := ProperCommands(log[..|log| - 1], 8, letter, acct);
        }
      } else if state == Failed {
        k :| 0 <= k <= 8 && BrokenAt(log, k, letter, acct);
        if Proper(log, k, letter, acct) {
          line := ProperCommands(log, k, letter, acct);
        } else {
          line := ProperCommands(log[..|log| - 1], k, letter, acct);
        }
      } else {
        k := Stage(state);
        line := ProperCommands(log, k, letter, acct);
      }
    }
  }

  lemma HandledCases(acct: Account, n: Net, sends: bool)
    ensures n.state == Greet ==> Handled(acct, n, sends) == AfterGreeting(n, sends)
    ensures n.state in {Failed, Ready, Resolve, Connect} ==> Handled(acct, n, sends) == n
    ensures n.state == Close ==> Handled(acct, n, sends) == Handled(acct, n, true)
    ensures n.state !in {Ready, Close} ==> Handled(acct, n, sends).state != Ready
  {
    hide Reply, Starts, AfterGreeting, LineEnd;
  }

  lemma GreetingStep(n: Net, sends: bool)
    ensures !HasLine(n.inbuf) ==> AfterGreeting(n, sends) == n
    ensures HasLine(n.inbuf) ==>
              var line, n1 := Line(n.inbuf), n.(inbuf := Beyond(n.inbuf));
              AfterGreeting(n, sends)
              == if !(Starts("220", line) || Starts("250", line)) then n.(state := Failed)
                 else if Starts("250 ", line) then n1.(state := if sends then Challenge else Failed)
                 else if n1.inbuf == "" then n1 else AfterGreeting(n1, sends)
  {
  }

  lemma Texts()
    ensures Reply(1) == "250 " && Reply(2) == "334 " && Reply(8) == "221 "
  {
  }

  lemma AnswerIs(m: Mail, acct: Account, line: string)
    requires Answerable(acct, line)
    ensures Command(2, m, acct, line) == Chars(C.Answer(Encoded(line), acct.user, acct.pass))
  {
  }

  /** Text that stays on its line. */
  predicate Plain(s: string) { forall i :: 0 <= i < |s| ==> s[i] != '\r' }

  /** A line in front of anything else. */
  lemma LineFirst(p: string, rest: string)
    requires Plain(p)
    ensures HasLine(p + "\r\n" + rest) && Line(p + "\r\n" + rest) == p && Beyond(p + "\r\n" + rest) == rest
  {
    var s := p + "\r\n" + rest;
    assert s[|p|] == '\r' && s[|p| + 1] == '\n';
    assert forall j :: 0 <= j < |p| ==> s[j] == p[j];
    assert s[..|p|] == p && s[|p| + 2..] == rest;
  }

  /** The text of the reply that the state waits for, and nothing more. */
  function GoodReply(s: State): string
    requires s !in {Failed, Ready, Resolve, Connect}
  {
    Reply(Stage(s)) + "\r\n"
  }

  /** With an empty buffer the expected reply leads to the next state. */
  lemma GoodStep(acct: Account, n: Net)
    requires n.state !in {Failed, Ready, Resolve, Connect} && n.inbuf == "" && |acct.user| + 33 <= C.RIGHT
    ensures Step(acct, n, Arrived(GoodReply(n.state), true))
            == n.(state := if n.state == Close then Ready else Next(n.state))
  {
    hide LineEnd, HasLine, Line, Beyond, Reply, C.Decodable, Encoded;
    var p := Reply(Stage(n.state));
    ReplyText(Stage(n.state));
    LineFirst(p, "");
    assert p + "\r\n" + "" == GoodReply(n.state);
    assert "" + GoodReply(n.state) == GoodReply(n.state);
    EmptyChallenge();
    Texts();
    GreetingStep(n.(inbuf := GoodReply(n.state)), true);
  }

  lemma ReplyText(k: nat)
    requires 1 <= k <= 8
    ensures |Reply(k)| == 4 && forall i :: 0 <= i < 4 ==> Reply(k)[i] != '\r'
    ensures Starts(Reply(k), Reply(k)) && Starts("250", "250 ") && !Starts("220", "250 ")
  {
    assert "250 "[..3] == "250";
    assert "250 "[..3][1] == '5';
  }

  lemma EmptyChallenge()
    ensures C.Decodable(Encoded("334 "))
  {
    assert Encoded("334 ") == [];
  }

  /** Enough data to overflow the buffer. */
  function Flood(): (s: string)
    ensures |s| == INBUF
  {
    seq(INBUF, _ => 'x')
  }

  /**
   * A failure that is not final: a whole session to the ready state, its connection still up, a second message whose
   * host name is being resolved, data that overflows the buffer, and then the answer to the name request.
   */
  method FailureForgotten(acct: Account, m: Mail) returns (before: State, after: State)
    requires acct.Ok() && acct.host != "" && |acct.user| + 33 <= C.RIGHT && m.Fits()
    ensures before == Failed && after == Connect
  {
    hide Handled, GoodReply, Flood, Proper, Broken, Reply, Client.Valid;
    var c := new Client(acct);
    c.Send(m, Found, true);
    c.OnConnected(true, true, true, true);
    var i := 1;
    while i <= 8
      invariant 1 <= i <= 9 && fresh(c) && c.acct == acct && c.Valid()
      invariant c.online && !c.dnsPending && !c.connPending && c.inbuf == ""
      invariant if i <= 8 then c.state !in {Failed, Ready, Resolve, Connect} && Stage(c.state) == i
                else c.state == Ready
    {
      GoodStep(acct, c.Abs());
      c.OnArrived(GoodReply(c.state), true);
      i := i + 1;
    }
    c.Send(m, InProgress, true);
    c.OnArrived(Flood(), true);
    before := c.state;
    c.OnResolved(true, true);
    after := c.state;
  }
}
