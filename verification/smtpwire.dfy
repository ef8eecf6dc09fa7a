/** What the other side reads off an SMTP session, sections 3.3 and 4.2 of RFC 5321 and section 4 of RFC 4954. */
module SmtpWire {
  import opened Smtp
  import C = CramMd5

  /** The commands without an argument, each on a line of its own. */
  lemma PlainCommands(m: Mail, acct: Account, line: string)
    ensures Command(0, m, acct, line) == "ehlo [127.0.1.1]" + "\r\n"
    ensures Command(1, m, acct, line) == "AUTH CRAM-MD5" + "\r\n"
    ensures Command(5, m, acct, line) == "data" + "\r\n" && Command(7, m, acct, line) == "quit" + "\r\n"
  {
  }

  /** The envelope: who sends, and then who receives. */
  lemma EnvelopeRead(m: Mail, acct: Account, line: string)
    requires Plain(m.sender) && Plain(m.rcpt)
    ensures var from, to := Command(3, m, acct, line), Command(4, m, acct, line);
            HasLine(from) && Line(from) == "mail FROM:<" + m.sender + ">" && Beyond(from) == ""
            && HasLine(to) && Line(to) == "rcpt TO:<" + m.rcpt + ">" && Beyond(to) == ""
  {
    hide HasLine, Line, Beyond;
    var a, b := "mail FROM:<" + m.sender + ">", "rcpt TO:<" + m.rcpt + ">";
    LineFirst(a, "");
    LineFirst(b, "");
    assert Command(3, m, acct, line) == a + "\r\n" + "" && Command(4, m, acct, line) == b + "\r\n" + "";
  }

  /** The message: three header lines, an empty line, the body, and the line with the dot. */
  lemma MessageRead(m: Mail, acct: Account, line: string)
    requires Plain(m.sender) && Plain(m.rcpt) && Plain(m.subj)
    ensures var s0 := Command(6, m, acct, line);
            HasLine(s0) && Line(s0) == "From: " + m.sender
            && var s1 := Beyond(s0);
               HasLine(s1) && Line(s1) == "To: " + m.rcpt
               && var s2 := Beyond(s1);
                  HasLine(s2) && Line(s2) == "Subject: " + m.subj
                  && var s3 := Beyond(s2);
                     HasLine(s3) && Line(s3) == "" && Beyond(s3) == m.body + "\r\n" + "." + "\r\n"
  {
    hide HasLine, Line, Beyond;
    var s4 := m.body + "\r\n" + "." + "\r\n";
    var s3 := "" + "\r\n" + s4;
    var s2 := "Subject: " + m.subj + "\r\n" + s3;
    var s1 := "To: " + m.rcpt + "\r\n" + s2;
    var s0 := "From: " + m.sender + "\r\n" + s1;
    LineFirst("", s4);
    LineFirst("Subject: " + m.subj, s3);
    LineFirst("To: " + m.rcpt, s2);
    LineFirst("From: " + m.sender, s1);
    assert Command(6, m, acct, line) == s0;
  }

  /** The code that the client waits for. */
  function Expected(s: State): string
    requires s in {Challenge, Auth, From, To, Data, Quit, Close}
  {
    match s
    case Challenge => "334"
    case Auth => "235"
    case Data => "354"
    case Close => "221"
    case _ => "250"
  }

  /** A reply of one line takes the session on exactly if it has the code that is due; any other ends it. */
  lemma ReplyDecides(acct: Account, n: Net, code: string, text: string)
    requires n.state in {Auth, From, To, Data, Quit, Close} && n.inbuf == ""
    requires |code| == 3 && Plain(code) && Plain(text) && |text| + 6 < INBUF
    ensures Step(acct, n, Arrived(code + " " + text + "\r\n", true)).state
            == if code != Expected(n.state) then Failed
               else match n.state
                    case Auth => From
                    case From => To
                    case To => Data
                    case Data => Quit
                    case Quit => Close
                    case _ => Ready
  {
    hide LineEnd, HasLine, Line, Beyond, C.Decodable, Encoded;
    var p := code + " " + text;
    LineFirst(p, "");
    assert "" + (p + "\r\n") == p + "\r\n" + "" == p + "\r\n";
    ReplyIs(n.state);
    assert p[..4] == code + " ";
    if code + " " == Expected(n.state) + " " {
      assert code == (code + " ")[..3] == (Expected(n.state) + " ")[..3];
    }
  }

  lemma ReplyIs(s: State)
    requires s in {Challenge, Auth, From, To, Data, Quit, Close}
    ensures Reply(Stage(s)) == Expected(s) + " "
  {
  }

  /** A challenge is answered if it can be, and nothing else is an answer to AUTH. */
  lemma ChallengeDecides(acct: Account, n: Net, code: string, text: string)
    requires n.state == Challenge && n.inbuf == ""
    requires |code| == 3 && Plain(code) && Plain(text) && |text| + 6 < INBUF
    ensures Step(acct, n, Arrived(code + " " + text + "\r\n", true)).state
            == if code == "334" && Answerable(acct, code + " " + text) then Auth else Failed
  {
    hide LineEnd, HasLine, Line, Beyond, C.Decodable, Encoded;
    var p := code + " " + text;
    LineFirst(p, "");
    assert "" + (p + "\r\n") == p + "\r\n" + "" == p + "\r\n";
    ReplyIs(n.state);
    assert p[..4] == code + " ";
    if code + " " == "334 " {
      assert code == (code + " ")[..3] == "334 "[..3] == "334";
    }
  }

  /** The input buffer holds 2047 characters. */
  lemma InputLimit(acct: Account, n: Net, data: string, sends: bool)
    requires |n.inbuf| + |data| >= 2048
    ensures Step(acct, n, Arrived(data, sends)) == n.(state := Failed)
  {
  }
}
