/** What the command lines of delivery/smtp_receiver.py do, from their texts on. */
module SmtpCommands {
  import opened Text
  import opened Encodings
  import opened SmtpReceiver

  // ---------- Reading a keyword ----------

  /** A word is written in any mixture of upper and lower case. */
  predicate Spells(w: string, keyword: string) {
    Upper(w) == keyword
  }

  lemma SpelledEnds(w: string, keyword: string)
    requires Spells(w, keyword) && keyword != "" && '!' <= keyword[0] <= '~' && '!' <= keyword[|keyword| - 1] <= '~'
    ensures w != "" && Tight(w, IsSpace)
  {
    assert UpperChar(w[0]) == keyword[0] && UpperChar(w[|w| - 1]) == keyword[|w| - 1];
  }

  /** A keyword at the very start of a line is what the stripped, upper-cased line starts with. */
  lemma KeywordIsSeen(w: string, rest: string, keyword: string)
    requires Spells(w, keyword) && w != "" && Tight(w, IsSpace)
    ensures keyword <= Upper(Strip(w + rest))
  {
    var s := StripRight(w + rest, IsSpace);
    StripRightKeeps(w, rest, IsSpace);
    assert StripLeft(w + rest, IsSpace) == w + rest;
    assert Upper(s)[..|w|] == Upper(s[..|w|]);
  }

  // ---------- MAIL and RCPT ----------

  /** The text is the keyword, white space, the address in angle brackets, and white space. */
  ghost predicate Brackets(text: string, keyword: string, address: string) {
    exists w, left, right :: BracketsAs(text, keyword, address, w, left, right)
  }

  predicate BracketsAs(text: string, keyword: string, address: string, w: string, left: string, right: string) {
    && text == w + (left + ("<" + address + ">") + right) && Spells(w, keyword)
    && (forall i :: 0 <= i < |left| ==> IsSpace(left[i])) && (forall i :: 0 <= i < |right| ==> IsSpace(right[i]))
  }

  /** The address neither begins nor ends with an angle bracket. */
  predicate Unbracketed(address: string) {
    address == "" || (address[0] !in "<>" && address[|address| - 1] !in "<>")
  }

  lemma AngleBrackets(address: string)
    requires Unbracketed(address)
    ensures StripChars("<" + address + ">", IsAngle) == address
  {
    UnbracketedIsTight(address);
    StripOf("<", address, ">", IsAngle);
  }

  lemma UnbracketedIsTight(address: string)
    ensures Unbracketed(address) <==> Tight(address, IsAngle)
  {
    assert forall c :: IsAngle(c) <==> c in "<>";
  }

  lemma AddressIsRead(text: string, address: string, w: string, left: string, right: string, keyword: string)
    requires BracketsAs(text, keyword, address, w, left, right) && Unbracketed(address)
    ensures Address(text, |w|) == address
  {
    var bracketed := "<" + address + ">";
    assert Drop(text, |w|) == left + bracketed + right;
    StripOf(left, bracketed, right, IsSpace);
    AngleBrackets(address);
  }

  lemma MailIsParsed(text: string, address: string)
    requires Brackets(text, "MAIL FROM:", address) && Unbracketed(address)
    ensures ParseCommand(text) == MailFrom(address)
  {
    var w, left, right :| BracketsAs(text, "MAIL FROM:", address, w, left, right);
    SpelledEnds(w, "MAIL FROM:");
    KeywordIsSeen(w, left + ("<" + address + ">") + right, "MAIL FROM:");
    AddressIsRead(text, address, w, left, right, "MAIL FROM:");
    ReadsMail(text, Upper(Strip(text)));
  }

  lemma ReadsMail(text: string, u: string)
    requires u == Upper(Strip(text)) && "MAIL FROM:" <= u
    ensures ParseCommand(text) == MailFrom(Address(text, 10))
  {
    assert u[0] == 'M';
  }

  lemma RcptIsParsed(text: string, address: string)
    requires Brackets(text, "RCPT TO:", address) && Unbracketed(address)
    ensures ParseCommand(text) == RcptTo(address)
  {
    var w, left, right :| BracketsAs(text, "RCPT TO:", address, w, left, right);
    SpelledEnds(w, "RCPT TO:");
    KeywordIsSeen(w, left + ("<" + address + ">") + right, "RCPT TO:");
    AddressIsRead(text, address, w, left, right, "RCPT TO:");
    ReadsRcpt(text, Upper(Strip(text)));
  }

  lemma ReadsRcpt(text: string, u: string)
    requires u == Upper(Strip(text)) && "RCPT TO:" <= u
    ensures ParseCommand(text) == RcptTo(Address(text, 8))
  {
    assert u[0] == 'R' && u[1] == 'C';
  }

  /** The reply is written unless the transport is closing. */
  predicate Replied(s: Session, t: Session, code: nat) {
    if s.closing then t.replies == s.replies
    else |t.replies| == |s.replies| + 1 && t.replies[..|s.replies|] == s.replies && t.replies[|s.replies|].code == code
  }

  /** MAIL FROM:<a> starts a transaction of that sender, whatever there was before. */
  lemma MailStarts(c: Config, s: Session, line: seq<Byte>, address: string)
    requires s.mode.Command? && Brackets(c.decode(line), "MAIL FROM:", address) && Unbracketed(address)
    ensures var t := Handler(c)(s, line);
            && t.mailFrom == address && t.rcptTo == [] && t.mode.Command? && t.submitted == s.submitted
            && t.dispatched == s.dispatched && Replied(s, t, 250)
  {
    MailIsParsed(c.decode(line), address);
  }

  /** RCPT TO:<a> adds exactly that recipient, and is refused before MAIL. */
  lemma RcptAdds(c: Config, s: Session, line: seq<Byte>, address: string)
    requires s.mode.Command? && Brackets(c.decode(line), "RCPT TO:", address) && Unbracketed(address)
    ensures var t := Handler(c)(s, line);
            && t.mailFrom == s.mailFrom && t.mode.Command? && t.dispatched == s.dispatched
            && t.rcptTo == (if s.mailFrom == "" then s.rcptTo else s.rcptTo + [address])
            && Replied(s, t, if s.mailFrom == "" then 503 else 250)
  {
    RcptIsParsed(c.decode(line), address);
  }

  // ---------- What spoils an address ----------

  lemma {:induction false} StripLeftKeeps(front: string, rest: string, drop: char -> bool) returns (kept: string)
    requires front != "" && !drop(front[|front| - 1])
    ensures StripLeft(front + rest, drop) == kept + rest && kept != "" && kept[|kept| - 1] == front[|front| - 1]
  {
    if drop(front[0]) {
      assert (front + rest)[1..] == front[1..] + rest;
      kept := StripLeftKeeps(front[1..], rest, drop);
    } else {
      kept := front;
    }
  }

  lemma LongerThanAddress(kept: string, address: string)
    requires kept != "" && kept[|kept| - 1] == ':' && Unbracketed(address)
    ensures |StripChars(kept + ("<" + address + ">"), IsAngle)| > |address|
  {
    var s, i := kept + ("<" + address + ">"), |kept| - 1;
    UnbracketedIsTight(address);
    assert s[i] == ':';
    if address == "" {
      StripKeeps(s, IsAngle, i, i);
    } else {
      assert s[i + 1 + |address|] == address[|address| - 1];
      StripKeeps(s, IsAngle, i, i + 1 + |address|);
    }
  }

  lemma CutTooEarly(front: string, address: string, text: string)
    requires |front| > 8 && front[|front| - 1] == ':' && text == front + ("<" + address + ">") && Unbracketed(address)
    ensures Address(text, 8) != address
  {
    assert Drop(text, 8) == front[8..] + ("<" + address + ">");
    var kept := StripLeftKeeps(front[8..], "<" + address + ">", IsSpace);
    LongerThanAddress(kept, address);
  }

  lemma PaddedKeyword(pad: string, w: string, rest: string)
    requires Only(pad, IsSpace) && Spells(w, "RCPT TO:") && w != "" && Tight(w, IsSpace)
    ensures "RCPT TO:" <= Upper(Strip(pad + (w + rest)))
  {
    StripLeftOf(pad, w + rest, IsSpace);
    StripLeftOf("", w + rest, IsSpace);
    assert "" + (w + rest) == w + rest;
    KeywordIsSeen(w, rest, "RCPT TO:");
  }

  /** With white space before the keyword the line is still recognised, but its address is cut at the wrong place. */
  lemma AddressIffFlush(pad: string, w: string, address: string)
    requires Only(pad, IsSpace) && Spells(w, "RCPT TO:") && Unbracketed(address)
    ensures var text := pad + (w + ("<" + address + ">"));
            ParseCommand(text).RcptTo? && (ParseCommand(text).address == address <==> pad == "")
  {
    var bracketed := "<" + address + ">";
    var text := pad + (w + bracketed);
    SpelledEnds(w, "RCPT TO:");
    PaddedKeyword(pad, w, bracketed);
    ReadsRcpt(text, Upper(Strip(text)));
    AddressBehind(pad, w, address, text);
  }

  lemma AddressBehind(pad: string, w: string, address: string, text: string)
    requires Spells(w, "RCPT TO:") && Unbracketed(address) && text == pad + (w + ("<" + address + ">"))
    ensures Address(text, 8) == address <==> pad == ""
  {
    if pad == "" {
      assert text == w + ("" + ("<" + address + ">") + "");
      AddressIsRead(text, address, w, "", "", "RCPT TO:");
    } else {
      assert UpperChar(w[7]) == "RCPT TO:"[7];
      assert text == (pad + w) + ("<" + address + ">");
      CutTooEarly(pad + w, address, text);
    }
  }

  /** A parameter after the address, as in section 4.1.2 of RFC 5321, becomes part of the address. */
  lemma ParametersJoinTheAddress(w: string, address: string, parameters: string)
    requires Spells(w, "MAIL FROM:") && Unbracketed(address) && address != ""
    requires parameters != "" && !IsSpace(parameters[|parameters| - 1]) && !IsAngle(parameters[|parameters| - 1])
    ensures ParseCommand(w + ("<" + (address + "> " + parameters))) == MailFrom(address + "> " + parameters)
  {
    var read := address + "> " + parameters;
    var text := w + ("<" + read);
    SpelledEnds(w, "MAIL FROM:");
    KeywordIsSeen(w, "<" + read, "MAIL FROM:");
    ReadsMail(text, Upper(Strip(text)));
    assert Drop(text, 10) == "<" + read;
    UnbracketedIsTight(address);
    NothingToStrip("<" + read);
    StripOf("<", read, "", IsAngle);
    assert "<" + read + "" == "<" + read;
  }

  // ---------- The other commands ----------

  /** The text is the word with white space around it. */
  ghost predicate Says(text: string, word: string) {
    exists w, left, right :: SaysAs(text, word, w, left, right)
  }

  ghost predicate SaysAs(text: string, word: string, w: string, left: string, right: string) {
    text == left + w + right && Spells(w, word) && Only(left, IsSpace) && Only(right, IsSpace)
  }

  lemma WordIsSeen(text: string, word: string)
    requires Says(text, word) && word != "" && '!' <= word[0] <= '~' && '!' <= word[|word| - 1] <= '~'
    ensures Upper(Strip(text)) == word
  {
    var w, left, right :| SaysAs(text, word, w, left, right);
    SpelledEnds(w, word);
    StripOf(left, w, right, IsSpace);
  }

  /** DATA opens the message, empty, if there is a recipient. */
  lemma DataOpens(c: Config, s: Session, line: seq<Byte>)
    requires s.mode.Command? && Says(c.decode(line), "DATA")
    ensures var t := Handler(c)(s, line);
            if s.rcptTo == [] then t.mode.Command? && t.dataBuffer == s.dataBuffer && Replied(s, t, 503)
            else t.mode.Data? && t.dataBuffer == [] && t.dataBytes == 0 && Replied(s, t, 354)
    ensures Handler(c)(s, line).mailFrom == s.mailFrom && Handler(c)(s, line).rcptTo == s.rcptTo
  {
    WordIsSeen(c.decode(line), "DATA");
  }

  lemma RsetForgets(c: Config, s: Session, line: seq<Byte>)
    requires s.mode.Command? && Says(c.decode(line), "RSET")
    ensures var t := Handler(c)(s, line);
            && t.mailFrom == "" && t.rcptTo == [] && t.dataBuffer == [] && t.mode.Command? && Replied(s, t, 250)
            && t.submitted == s.submitted && t.dispatched == s.dispatched
  {
    WordIsSeen(c.decode(line), "RSET");
  }

  /** After QUIT nothing more is written. */
  lemma QuitCloses(c: Config, s: Session, line: seq<Byte>)
    requires s.mode.Command? && Says(c.decode(line), "QUIT")
    ensures var t := Handler(c)(s, line);
            t.closing && Replied(s, t, 221) && t == s.(closing := true, replies := t.replies)
  {
    WordIsSeen(c.decode(line), "QUIT");
  }

  lemma NoopChangesNothing(c: Config, s: Session, line: seq<Byte>)
    requires s.mode.Command? && Says(c.decode(line), "NOOP")
    ensures var t := Handler(c)(s, line); Replied(s, t, 250) && t == s.(replies := t.replies)
  {
    WordIsSeen(c.decode(line), "NOOP");
  }

  /** HELO and EHLO keep the rest of the line, without the white space before it. */
  lemma HeloNamesTheClient(c: Config, s: Session, line: seq<Byte>, w: string, gap: string, name: string)
    requires s.mode.Command? && c.decode(line) == w + (gap + name) && (Spells(w, "HELO") || Spells(w, "EHLO"))
    requires gap != "" && Only(gap, IsSpace) && (name == "" || !IsSpace(name[0]))
    ensures var t := Handler(c)(s, line);
            Replied(s, t, 250) && t == s.(helo := name, replies := t.replies)
  {
    var text, keyword := c.decode(line), Upper(w);
    SpelledEnds(w, keyword);
    KeywordIsSeen(w, gap + name, keyword);
    assert forall i :: 0 <= i < |w| ==> UpperChar(w[i]) == keyword[i];
    ArgumentOf(w, gap, name);
  }

  lemma ArgumentOf(w: string, gap: string, name: string)
    requires w != "" && Only(w, NotSpace)
    requires gap != "" && Only(gap, IsSpace) && (name == "" || !IsSpace(name[0]))
    ensures Argument(w + (gap + name)) == name
  {
    var text := w + (gap + name);
    var n := RunLength(text, IsSpace);
    assert forall i :: 0 <= i < |w| ==> text[i] == w[i];
    assert text[|w|] == gap[0];
    assert n == |w| && Drop(text, n) == gap + name;
    StripLeftOf(gap, name, IsSpace);
  }

  predicate Unknown(u: string) {
    && u != "" && !("HELO" <= u) && !("EHLO" <= u) && !("MAIL FROM:" <= u) && !("RCPT TO:" <= u)
    && u !in ["DATA", "RSET", "QUIT", "NOOP"]
  }

  /** Any other text is answered with 500 and changes nothing; a blank line is not even answered. */
  lemma OthersAreRefused(c: Config, s: Session, line: seq<Byte>)
    requires s.mode.Command?
    ensures var u := Upper(Strip(c.decode(line)));
            var t := Handler(c)(s, line);
            && (u == "" ==> t == s)
            && (Unknown(u) ==> Replied(s, t, 500) && t == s.(replies := t.replies))
  {
    var text := c.decode(line);
    UnknownIsUnrecognized(text, Upper(Strip(text)));
  }

  lemma UnknownIsUnrecognized(text: string, u: string)
    requires u == Upper(Strip(text))
    ensures u == "" ==> ParseCommand(text) == Blank
    ensures Unknown(u) ==> ParseCommand(text) == Unrecognized
  {
  }
}
