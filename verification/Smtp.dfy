/**
 * The plaintext message the mailer builds: headers behind a CR/LF guard, a body brought
 * to CRLF line endings (section 2.3 of RFC 5322), the check made before sending, and the
 * callback that hands the payload to the transfer library piece by piece.
 */
module Smtp {
  import opened Common

  const CRLF := "\r\n"

  // ------------------------------------------------------------------ CRLF text

  /** Every line feed follows a carriage return. */
  predicate CrlfText(s: string) {
    forall i :: 0 <= i < |s| && s[i] == '\n' ==> i > 0 && s[i - 1] == '\r'
  }

  method LooksLikeCrLfText(s: string) returns (ok: bool)
    ensures ok <==> CrlfText(s)
  {
    for i := 0 to |s|
      invariant forall j :: 0 <= j < i && s[j] == '\n' ==> j > 0 && s[j - 1] == '\r'
    {
      if s[i] == '\n' {
        if i == 0 || s[i - 1] != '\r' { return false; }
      }
    }
    ok := true;
  }

  /** A line feed without its carriage return gets one; everything else is copied. */
  function Normalize(s: string): string {
    if s == "" then ""
    else
      var n := |s| - 1;
      Normalize(s[..n]) + (if s[n] == '\n' && (n == 0 || s[n - 1] != '\r') then CRLF else [s[n]])
  }

  method NormalizeBody(body: string) returns (out: string)
    ensures out == Normalize(body)
  {
    out := "";
    for i := 0 to |body|
      invariant out == Normalize(body[..i])
    {
      var c := body[i];
      assert body[..i + 1][..i] == body[..i];
      ghost var before := out;
      if c == '\n' {
        if i == 0 || body[i - 1] != '\r' { out := out + "\r"; }
        out := out + "\n";
        assert before + "\r" + "\n" == before + CRLF;
      } else {
        out := out + [c];
      }
    }
    assert body[..|body|] == body;
  }

  lemma CrlfJoined(a: string, b: string)
    requires CrlfText(a) && CrlfText(b)
    ensures CrlfText(a + b)
  {
  }

  /** The normaliser ends with the character its input ends with. */
  lemma NormalizeEnd(s: string)
    requires s != ""
    ensures Normalize(s) != "" && Normalize(s)[|Normalize(s)| - 1] == s[|s| - 1]
  {
  }

  lemma {:induction false} NormalizeIsCrlf(s: string)
    ensures CrlfText(Normalize(s))
  {
    if s != "" {
      var n := |s| - 1;
      NormalizeIsCrlf(s[..n]);
      if n > 0 { NormalizeEnd(s[..n]); }
    }
  }

  lemma {:induction false} NormalizeGrows(s: string)
    ensures |Normalize(s)| >= |s|
  {
    if s != "" { NormalizeGrows(s[..|s| - 1]); }
  }

  /** The normaliser leaves exactly the CRLF texts alone. */
  lemma {:induction false} NormalizeFixpoints(s: string)
    ensures Normalize(s) == s <==> CrlfText(s)
  {
    if s != "" {
      var n := |s| - 1;
      NormalizeFixpoints(s[..n]);
      NormalizeGrows(s[..n]);
      assert s == s[..n] + [s[n]];
      if s[n] == '\n' && (n == 0 || s[n - 1] != '\r') {
        assert |Normalize(s)| > |s|;
      } else {
        assert Normalize(s)[..|Normalize(s)| - 1] == Normalize(s[..n]);
        assert CrlfText(s[..n]) <==> CrlfText(s);
      }
    }
  }

  lemma NormalizeIdempotent(s: string)
    ensures Normalize(Normalize(s)) == Normalize(s)
  {
    NormalizeIsCrlf(s);
    NormalizeFixpoints(Normalize(s));
  }

  // ------------------------------------------------------------------ bare carriage returns

  /** Every carriage return is followed by a line feed. */
  predicate CrFollowed(s: string) {
    forall i :: 0 <= i < |s| && s[i] == '\r' ==> i + 1 < |s| && s[i + 1] == '\n'
  }

  /** CR and LF occur only as pairs, as section 2.3 of RFC 5322 demands. */
  predicate Paired(s: string) {
    CrlfText(s) && CrFollowed(s)
  }

  /** The same with a carriage return at the very end still open. */
  predicate CrClosed(s: string) {
    forall i :: 0 <= i < |s| - 1 && s[i] == '\r' ==> s[i + 1] == '\n'
  }

  predicate EndsInCr(s: string) {
    s != "" && s[|s| - 1] == '\r'
  }

  lemma FollowedIsClosed(s: string)
    ensures CrFollowed(s) <==> CrClosed(s) && !EndsInCr(s)
  {
  }

  lemma ClosedSnoc(s: string, c: char)
    ensures CrClosed(s + [c]) <==> CrClosed(s) && (EndsInCr(s) ==> c == '\n')
  {
    var t := s + [c];
    if CrClosed(t) {
      forall i | 0 <= i < |s| - 1 && s[i] == '\r' ensures s[i + 1] == '\n' {
        assert t[i] == s[i] && t[i + 1] == s[i + 1];
      }
      assert EndsInCr(s) ==> t[|s| - 1] == '\r' && t[|s|] == c;
    }
  }

  lemma ClosedCrlf(s: string)
    requires !EndsInCr(s)
    ensures CrClosed(s + CRLF) <==> CrClosed(s)
  {
    ClosedSnoc(s, '\r');
    ClosedSnoc(s + ['\r'], '\n');
    assert s + CRLF == s + ['\r'] + ['\n'];
  }

  /** Normalising neither adds nor repairs a bare carriage return. */
  lemma {:induction false} NormalizeKeepsCr(s: string)
    ensures CrClosed(Normalize(s)) <==> CrClosed(s)
    ensures EndsInCr(Normalize(s)) <==> EndsInCr(s)
  {
    if s != "" {
      var n := |s| - 1;
      var front := s[..n];
      NormalizeKeepsCr(front);
      NormalizeEnd(s);
      assert s == front + [s[n]];
      ClosedSnoc(front, s[n]);
      if s[n] == '\n' && (n == 0 || s[n - 1] != '\r') {
        ClosedCrlf(Normalize(front));
      } else {
        ClosedSnoc(Normalize(front), s[n]);
      }
    }
  }

  lemma FollowedJoined(a: string, b: string)
    requires CrFollowed(a)
    ensures CrFollowed(a + b) <==> CrFollowed(b)
  {
    var s := a + b;
    if CrFollowed(s) {
      forall i | 0 <= i < |b| && b[i] == '\r' ensures i + 1 < |b| && b[i + 1] == '\n' {
        assert s[|a| + i] == '\r';
        assert s[|a| + i + 1] == '\n' && |a| + i + 1 < |a| + |b|;
        assert s[|a| + (i + 1)] == b[i + 1];
      }
    }
  }

  lemma FollowedCrlf(s: string)
    ensures CrFollowed(s + CRLF) <==> CrFollowed(s)
  {
    var t := s + CRLF;
    assert t[|s|] == '\r' && t[|s| + 1] == '\n';
    if CrFollowed(t) {
      forall i | 0 <= i < |s| && s[i] == '\r' ensures i + 1 < |s| && s[i + 1] == '\n' {
        assert t[i] == '\r';
        assert t[i + 1] == '\n';
        assert i + 1 < |s| ==> t[i + 1] == s[i + 1];
      }
    }
  }

  lemma NormalizeFollowed(s: string)
    ensures CrFollowed(Normalize(s)) <==> CrFollowed(s)
  {
    NormalizeKeepsCr(s);
    FollowedIsClosed(s);
    FollowedIsClosed(Normalize(s));
  }

  /** A bare carriage return passes the checker and the normaliser unchanged. */
  lemma BareCrPasses()
    ensures CrlfText("a\rb") && Normalize("a\rb") == "a\rb" && !Paired("a\rb")
  {
    NormalizeFixpoints("a\rb");
    assert "a\rb"[1] == '\r' && "a\rb"[2] == 'b';
  }

  // ------------------------------------------------------------------ lines

  function Chop(s: string): string {
    if s != "" && s[|s| - 1] == '\r' then s[..|s| - 1] else s
  }

  /** One more character at the end of a list of lines. */
  function PutChar(lines: seq<string>, c: char): (r: seq<string>)
    requires |lines| >= 1
    ensures |r| >= 1
  {
    var k := |lines| - 1;
    if c == '\n' then lines[..k] + [Chop(lines[k])] + [""] else lines[..k] + [lines[k] + [c]]
  }

  /** The logical lines of a text: cut at line feeds, each with or without a carriage return before it. */
  function Lines(s: string): (r: seq<string>)
    ensures |r| >= 1
  {
    if s == "" then [""] else PutChar(Lines(s[..|s| - 1]), s[|s| - 1])
  }

  lemma LinesSnoc(s: string, c: char)
    ensures Lines(s + [c]) == PutChar(Lines(s), c)
  {
    assert (s + [c])[..|s|] == s;
  }

  lemma LastLineEnd(s: string)
    ensures var l := Lines(s)[|Lines(s)| - 1];
            l != "" ==> s != "" && l[|l| - 1] == s[|s| - 1]
  {
  }

  lemma PutCrlf(lines: seq<string>)
    requires |lines| >= 1
    ensures PutChar(PutChar(lines, '\r'), '\n') == lines + [""]
  {
    var k := |lines| - 1;
    var with := PutChar(lines, '\r');
    assert with[..k] == lines[..k] && with[k] == lines[k] + ['\r'];
    assert Chop(with[k]) == lines[k];
    assert lines[..k] + [lines[k]] == lines;
  }

  lemma PutLf(lines: seq<string>)
    requires |lines| >= 1 && Chop(lines[|lines| - 1]) == lines[|lines| - 1]
    ensures PutChar(lines, '\n') == lines + [""]
  {
    var k := |lines| - 1;
    assert lines[..k] + [lines[k]] == lines;
  }

  /** A CRLF ends a line. */
  lemma CrlfEndsLine(s: string)
    ensures Lines(s + CRLF) == Lines(s) + [""]
  {
    LinesSnoc(s, '\r');
    LinesSnoc(s + ['\r'], '\n');
    assert s + CRLF == (s + ['\r']) + ['\n'];
    PutCrlf(Lines(s));
  }

  /** So does a line feed that had no carriage return. */
  lemma LfEndsLine(s: string)
    requires s == "" || s[|s| - 1] != '\r'
    ensures Lines(s + ['\n']) == Lines(s) + [""]
  {
    LinesSnoc(s, '\n');
    LastLineEnd(s);
    PutLf(Lines(s));
  }

  lemma BareLfBecomesCrlf(s: string, t: string)
    requires Lines(t) == Lines(s) && (s == "" || s[|s| - 1] != '\r')
    ensures Lines(t + CRLF) == Lines(s + ['\n'])
  {
    LfEndsLine(s);
    CrlfEndsLine(t);
  }

  lemma SameCharAppended(s: string, t: string, c: char)
    requires Lines(t) == Lines(s)
    ensures Lines(t + [c]) == Lines(s + [c])
  {
    LinesSnoc(s, c);
    LinesSnoc(t, c);
  }

  /** Normalising changes no logical line. */
  lemma {:induction false} NormalizeKeepsLines(s: string)
    ensures Lines(Normalize(s)) == Lines(s)
  {
    if s != "" {
      var n := |s| - 1;
      var front := s[..n];
      NormalizeKeepsLines(front);
      assert s == front + [s[n]];
      if s[n] == '\n' && (n == 0 || s[n - 1] != '\r') {
        BareLfBecomesCrlf(front, Normalize(front));
      } else {
        SameCharAppended(front, Normalize(front), s[n]);
      }
    }
  }

  lemma {:induction false} SingleLine(s: string)
    requires '\n' !in s
    ensures Lines(s) == [s]
  {
    if s != "" {
      SingleLine(s[..|s| - 1]);
      assert s == s[..|s| - 1] + [s[|s| - 1]];
    }
  }

  /** A header line in front is one more logical line, whatever follows. */
  lemma {:induction false} LineInFront(h: string, rest: string)
    requires '\n' !in h
    ensures Lines(h + CRLF + rest) == [h] + Lines(rest)
  {
    if rest == "" {
      SingleLine(h);
      CrlfEndsLine(h);
      assert h + CRLF + rest == h + CRLF;
    } else {
      var n := |rest| - 1;
      LineInFront(h, rest[..n]);
      assert h + CRLF + rest == (h + CRLF + rest[..n]) + [rest[n]];
      LinesSnoc(h + CRLF + rest[..n], rest[n]);
      PutCharInFront(h, Lines(rest[..n]), rest[n]);
    }
  }

  lemma PutCharInFront(h: string, lines: seq<string>, c: char)
    requires |lines| >= 1
    ensures PutChar([h] + lines, c) == [h] + PutChar(lines, c)
  {
    var k := |lines| - 1;
    assert ([h] + lines)[..k + 1] == [h] + lines[..k];
  }

  // ------------------------------------------------------------------ headers

  predicate ContainsCrlf(s: string) {
    '\r' in s || '\n' in s
  }

  predicate IsAlnum(c: char) {
    'a' <= c <= 'z' || 'A' <= c <= 'Z' || '0' <= c <= '9'
  }

  predicate PlainNameChar(c: char) {
    IsAlnum(c) || c == ' ' || c == '_' || c == '.' || c == '-'
  }

  function Mailbox(email: string, name: string): string {
    if name == "" || exists c :: c in name && !PlainNameChar(c) then email else name + " <" + email + ">"
  }

  method FormatMailbox(email: string, name: string) returns (r: string)
    ensures r == Mailbox(email, name)
    ensures r == if name != "" && forall i :: 0 <= i < |name| ==>
                      || 'a' <= name[i] <= 'z' || 'A' <= name[i] <= 'Z' || '0' <= name[i] <= '9'
                      || name[i] == ' ' || name[i] == '_' || name[i] == '.' || name[i] == '-'
                 then name + " <" + email + ">" else email
  {
    if name == "" { return email; }
    for i := 0 to |name|
      invariant forall j :: 0 <= j < i ==> PlainNameChar(name[j])
    {
      if !PlainNameChar(name[i]) { return email; }
    }
    r := name + " <" + email + ">";
  }

  function Domain(email: string): string {
    if email == "" then "localhost"
    else if email[0] == '@' then (if |email| == 1 then "localhost" else email[1..])
    else Domain(email[1..])
  }

  /** The domain is what follows the first '@', and localhost stands in for an empty or missing one. */
  lemma {:induction false} DomainAfterAt(local: string, rest: string)
    requires '@' !in local
    ensures Domain(local) == "localhost"
    ensures Domain(local + "@" + rest) == if rest == "" then "localhost" else rest
  {
    if local == "" {
      assert local + "@" + rest == "@" + rest;
    } else {
      DomainAfterAt(local[1..], rest);
      assert (local + "@" + rest)[1..] == local[1..] + "@" + rest;
    }
  }

  lemma {:induction false} DomainKeepsGuard(email: string)
    requires !ContainsCrlf(email)
    ensures !ContainsCrlf(Domain(email))
  {
    if email != "" && email[0] != '@' { DomainKeepsGuard(email[1..]); }
  }

  /** What a message is made of; date and id carry the clock and the random part. */
  datatype Mail = Mail(fromEmail: string, fromName: string, to: string, subject: string, body: string, date: string, hex: string)

  function Headers(m: Mail): seq<string> {
    ["From: " + Mailbox(m.fromEmail, m.fromName),
     "To: " + m.to,
     "Subject: " + m.subject,
     "Date: " + m.date,
     "Message-ID: <" + m.hex + "@" + Domain(m.fromEmail) + ">",
     "MIME-Version: 1.0",
     "Content-Type: text/plain; charset=UTF-8",
     "Content-Transfer-Encoding: 8bit",
     ""]
  }

  function Joined(lines: seq<string>): string {
    if lines == [] then "" else lines[0] + CRLF + Joined(lines[1..])
  }

  function Message(m: Mail): string {
    Joined(Headers(m)) + (Normalize(m.body) + CRLF)
  }

  /** The text is the first k lines. */
  predicate Written(lines: seq<string>, k: nat, out: string)
    requires k <= |lines|
  {
    out + Joined(lines[k..]) == Joined(lines)
  }

  lemma LineWritten(lines: seq<string>, k: nat, out: string)
    requires k < |lines| && Written(lines, k, out)
    ensures Written(lines, k + 1, out + (lines[k] + CRLF))
  {
    var rest := Joined(lines[k + 1..]);
    assert lines[k..][1..] == lines[k + 1..];
    assert Joined(lines[k..]) == lines[k] + CRLF + rest;
    assert out + (lines[k] + CRLF) + rest == out + (lines[k] + CRLF + rest);
  }

  lemma AllWritten(lines: seq<string>, out: string)
    requires Written(lines, |lines|, out)
    ensures out == Joined(lines)
  {
    assert lines[|lines|..] == [];
  }

  method WriteLine(ghost lines: seq<string>, ghost k: nat, out: string, line: string) returns (longer: string)
    requires k < |lines| && lines[k] == line && Written(lines, k, out)
    ensures longer == out + (line + CRLF) && Written(lines, k + 1, longer)
  {
    LineWritten(lines, k, out);
    longer := out + (line + CRLF);
  }

  /** The header lines, one after the other. */
  method WriteHeaders(lines: seq<string>) returns (out: string)
    requires |lines| == 9
    ensures out == Joined(lines)
  {
    assert lines[0..] == lines;
    out := WriteLine(lines, 0, "", lines[0]);
    out := WriteLine(lines, 1, out, lines[1]);
    out := WriteLine(lines, 2, out, lines[2]);
    out := WriteLine(lines, 3, out, lines[3]);
    out := WriteLine(lines, 4, out, lines[4]);
    out := WriteLine(lines, 5, out, lines[5]);
    out := WriteLine(lines, 6, out, lines[6]);
    out := WriteLine(lines, 7, out, lines[7]);
    out := WriteLine(lines, 8, out, lines[8]);
    AllWritten(lines, out);
  }

  method BuildPlaintextRfc822(m: Mail) returns (out: string)
    ensures out == Message(m)
  {
    var mailbox := FormatMailbox(m.fromEmail, m.fromName);
    out := WriteHeaders(["From: " + mailbox,
                         "To: " + m.to,
                         "Subject: " + m.subject,
                         "Date: " + m.date,
                         "Message-ID: <" + m.hex + "@" + Domain(m.fromEmail) + ">",
                         "MIME-Version: 1.0",
                         "Content-Type: text/plain; charset=UTF-8",
                         "Content-Transfer-Encoding: 8bit",
                         ""]);
    var body := NormalizeBody(m.body);
    out := out + (body + CRLF);
  }

  predicate Guarded(m: Mail) {
    !ContainsCrlf(m.fromEmail) && !ContainsCrlf(m.to) && !ContainsCrlf(m.subject) && !ContainsCrlf(m.fromName)
  }

  predicate CleanStamp(m: Mail) {
    !ContainsCrlf(m.date) && !ContainsCrlf(m.hex)
  }

  lemma CleanJoined(a: string, b: string)
    ensures ContainsCrlf(a + b) <==> ContainsCrlf(a) || ContainsCrlf(b)
  {
    assert '\r' in a + b <==> '\r' in a || '\r' in b;
    assert '\n' in a + b <==> '\n' in a || '\n' in b;
  }

  lemma MailboxIsClean(email: string, name: string)
    requires !ContainsCrlf(email) && !ContainsCrlf(name)
    ensures !ContainsCrlf(Mailbox(email, name))
  {
    CleanJoined(name, " <");
    CleanJoined(name + " <", email);
    CleanJoined(name + " <" + email, ">");
  }

  lemma MessageIdIsClean(hex: string, domain: string)
    requires !ContainsCrlf(hex) && !ContainsCrlf(domain)
    ensures !ContainsCrlf("Message-ID: <" + hex + "@" + domain + ">")
  {
    CleanJoined("Message-ID: <", hex);
    CleanJoined("Message-ID: <" + hex, "@");
    CleanJoined("Message-ID: <" + hex + "@", domain);
    CleanJoined("Message-ID: <" + hex + "@" + domain, ">");
  }

  lemma PrefixesAreClean()
    ensures !ContainsCrlf("From: ") && !ContainsCrlf("To: ") && !ContainsCrlf("Subject: ") && !ContainsCrlf("Date: ")
  {
  }

  lemma VersionIsClean()
    ensures !ContainsCrlf("MIME-Version: 1.0")
  {
  }

  lemma ContentTypeIsClean()
    ensures !ContainsCrlf("Content-Type: text/plain; charset=UTF-8")
  {
  }

  lemma EncodingIsClean()
    ensures !ContainsCrlf("Content-Transfer-Encoding: 8bit")
  {
  }

  lemma FieldHeadersAreClean(m: Mail)
    requires Guarded(m) && CleanStamp(m)
    ensures !ContainsCrlf("From: " + Mailbox(m.fromEmail, m.fromName))
    ensures !ContainsCrlf("To: " + m.to) && !ContainsCrlf("Subject: " + m.subject) && !ContainsCrlf("Date: " + m.date)
    ensures !ContainsCrlf("Message-ID: <" + m.hex + "@" + Domain(m.fromEmail) + ">")
  {
    PrefixesAreClean();
    MailboxIsClean(m.fromEmail, m.fromName);
    CleanJoined("From: ", Mailbox(m.fromEmail, m.fromName));
    CleanJoined("To: ", m.to);
    CleanJoined("Subject: ", m.subject);
    CleanJoined("Date: ", m.date);
    DomainKeepsGuard(m.fromEmail);
    MessageIdIsClean(m.hex, Domain(m.fromEmail));
  }

  lemma HeadersAreSingleLines(m: Mail, i: nat)
    requires Guarded(m) && CleanStamp(m) && i < |Headers(m)|
    ensures !ContainsCrlf(Headers(m)[i])
  {
    if i < 5 { FieldHeadersAreClean(m); }
    else if i == 5 { VersionIsClean(); }
    else if i == 6 { ContentTypeIsClean(); }
    else if i == 7 { EncodingIsClean(); }
  }

  lemma JoinedInFront(lines: seq<string>, rest: string)
    requires lines != []
    ensures Joined(lines) + rest == lines[0] + CRLF + (Joined(lines[1..]) + rest)
  {
  }

  lemma FirstOfJoined(line: string, more: seq<string>, rest: seq<string>)
    ensures [line] + (more + rest) == ([line] + more) + rest
  {
  }

  lemma {:induction false} JoinedLines(lines: seq<string>, rest: string)
    requires forall i :: 0 <= i < |lines| ==> !ContainsCrlf(lines[i])
    ensures Lines(Joined(lines) + rest) == lines + Lines(rest)
  {
    if lines == [] {
      assert Joined(lines) + rest == rest;
    } else {
      JoinedLines(lines[1..], rest);
      JoinedInFront(lines, rest);
      LineInFront(lines[0], Joined(lines[1..]) + rest);
      assert lines == [lines[0]] + lines[1..];
      FirstOfJoined(lines[0], lines[1..], Lines(rest));
    }
  }

  lemma CleanLineIsCrlf(h: string)
    requires !ContainsCrlf(h)
    ensures CrlfText(h + CRLF)
  {
    assert CrlfText(h);
  }

  lemma {:induction false} JoinedIsCrlf(lines: seq<string>)
    requires forall i :: 0 <= i < |lines| ==> !ContainsCrlf(lines[i])
    ensures CrlfText(Joined(lines))
  {
    if lines != [] {
      JoinedIsCrlf(lines[1..]);
      CleanLineIsCrlf(lines[0]);
      CrlfJoined(lines[0] + CRLF, Joined(lines[1..]));
    }
  }

  /**
   * Behind the guard every message passes the check made before sending, and its logical
   * lines are exactly the nine header lines, the lines of the body and one closing line:
   * no field can add a header.
   */
  lemma MessageIsWellFormed(m: Mail)
    requires Guarded(m) && CleanStamp(m)
    ensures CrlfText(Message(m))
    ensures Lines(Message(m)) == Headers(m) + Lines(m.body) + [""]
  {
    forall i | 0 <= i < |Headers(m)| ensures !ContainsCrlf(Headers(m)[i]) { HeadersAreSingleLines(m, i); }
    NormalizeIsCrlf(m.body);
    CrlfJoined(Normalize(m.body), CRLF);
    JoinedIsCrlf(Headers(m));
    CrlfJoined(Joined(Headers(m)), Normalize(m.body) + CRLF);
    JoinedLines(Headers(m), Normalize(m.body) + CRLF);
    CrlfEndsLine(Normalize(m.body));
    NormalizeKeepsLines(m.body);
    assert Headers(m) + (Lines(m.body) + [""]) == Headers(m) + Lines(m.body) + [""];
  }

  /** Which line of a guarded message says what. */
  lemma MessageFields(m: Mail)
    requires Guarded(m) && CleanStamp(m)
    ensures var lines := Lines(Message(m));
            && |lines| >= 10
            && lines[0] == "From: " + Mailbox(m.fromEmail, m.fromName)
            && lines[1] == "To: " + m.to
            && lines[2] == "Subject: " + m.subject
            && lines[3] == "Date: " + m.date
            && lines[4] == "Message-ID: <" + m.hex + "@" + Domain(m.fromEmail) + ">"
            && lines[5] == "MIME-Version: 1.0"
            && lines[6] == "Content-Type: text/plain; charset=UTF-8"
            && lines[7] == "Content-Transfer-Encoding: 8bit"
            && lines[8] == ""
            && lines[9..] == Lines(m.body) + [""]
  {
    MessageIsWellFormed(m);
    FieldPositions(Headers(m), Lines(m.body), Lines(Message(m)));
  }

  lemma FieldPositions(headers: seq<string>, body: seq<string>, lines: seq<string>)
    requires |headers| == 9 && lines == headers + body + [""]
    ensures |lines| == 9 + |body| + 1 && lines[9..] == body + [""]
    ensures forall i :: 0 <= i < 9 ==> lines[i] == headers[i]
  {
  }

  lemma {:induction false} JoinedFollowed(lines: seq<string>)
    requires forall i :: 0 <= i < |lines| ==> !ContainsCrlf(lines[i])
    ensures CrFollowed(Joined(lines))
  {
    if lines != [] {
      JoinedFollowed(lines[1..]);
      FollowedCrlf(lines[0]);
      FollowedJoined(lines[0] + CRLF, Joined(lines[1..]));
    }
  }

  /** Behind the guard a message has CR and LF only as pairs exactly when its body has no bare carriage return. */
  lemma MessagePairedExactly(m: Mail)
    requires Guarded(m) && CleanStamp(m)
    ensures Paired(Message(m)) <==> CrFollowed(m.body)
  {
    MessageIsWellFormed(m);
    forall i | 0 <= i < |Headers(m)| ensures !ContainsCrlf(Headers(m)[i]) { HeadersAreSingleLines(m, i); }
    JoinedFollowed(Headers(m));
    FollowedJoined(Joined(Headers(m)), Normalize(m.body) + CRLF);
    FollowedCrlf(Normalize(m.body));
    NormalizeFollowed(m.body);
  }

  /** The mail server the client is configured for. */
  datatype Relay = Relay(host: string, username: string, password: string)

  datatype Submission = Refused(reason: string) | Submitted(payload: string)

  /** The client's own checks: what reaches the transfer library. */
  method Submit(relay: Relay, recipients: seq<string>, payload: string) returns (r: Submission)
    ensures r.Submitted? <==>
            && relay.host != "" && relay.username != "" && relay.password != ""
            && recipients != [] && payload != "" && CrlfText(payload)
    ensures r.Submitted? ==> r.payload == payload
  {
    if relay.host == "" { return Refused("SMTP host is empty"); }
    if relay.username == "" { return Refused("SMTP username is empty"); }
    if relay.password == "" { return Refused("SMTP app_password is empty"); }
    if recipients == [] { return Refused("No recipients"); }
    if payload == "" { return Refused("RFC822 payload is empty"); }
    var ok := LooksLikeCrLfText(payload);
    if !ok { return Refused("RFC822 payload must use CRLF line endings"); }
    r := Submitted(payload);
  }

  /** The mailer in front of the client: past its own guard the payload is never the reason for a refusal. */
  method SendPlaintext(relay: Relay, m: Mail) returns (r: Submission)
    requires CleanStamp(m)
    ensures r.Submitted? <==>
            && m.fromEmail != "" && m.to != ""
            && '\r' !in m.fromEmail + m.fromName + m.to + m.subject && '\n' !in m.fromEmail + m.fromName + m.to + m.subject
            && relay.host != "" && relay.username != "" && relay.password != ""
    ensures r.Submitted? ==> r.payload == Message(m)
  {
    if m.fromEmail == "" { return Refused("From email is empty"); }
    if m.to == "" { return Refused("To email is empty"); }
    if ContainsCrlf(m.fromEmail) || ContainsCrlf(m.to) || ContainsCrlf(m.subject) || ContainsCrlf(m.fromName) {
      return Refused("CRLF in headers is not allowed");
    }
    var payload := BuildPlaintextRfc822(m);
    MessageIsWellFormed(m);
    r := Submit(relay, [m.to], payload);
  }

  // ------------------------------------------------------------------ handing the payload over

  /** The product of two 64-bit sizes, wrapping around. */
  function Capacity(size: nat, nmemb: nat): nat {
    size * nmemb % 0x1_0000_0000_0000_0000
  }

  class Upload {
    const payload: string
    var data: nat
    var left: nat

    ghost predicate Valid()
      reads this
    {
      data + left == |payload|
    }

    constructor (payload: string)
      ensures Valid() && this.payload == payload && data == 0
    {
      this.payload, data, left := payload, 0, |payload|;
    }

    /** Copies out as much as fits and advances. */
    method ReadCallback(size: nat, nmemb: nat) returns (chunk: string)
      requires Valid()
      modifies this
      ensures Valid() && data == old(data) + |chunk|
      ensures chunk == payload[old(data)..data]
      ensures |chunk| == if old(left) < Capacity(size, nmemb) then old(left) else Capacity(size, nmemb)
    {
      var cap := Capacity(size, nmemb);
      var n := if left < cap then left else cap;
      chunk := payload[data..data + n];
      if n > 0 {
        data := data + n;
        left := left - n;
      }
    }
  }

  datatype Buffer = Buffer(size: nat, nmemb: nat)

  predicate Empty(b: Buffer) {
    Capacity(b.size, b.nmemb) == 0
  }

  /**
   * Called until it returns nothing, the callback delivers the payload from its start, and
   * all of it unless the product of the sizes came out as zero for some buffer.
   */
  method Transfer(payload: string, buffers: nat -> Buffer) returns (received: string)
    ensures received <= payload
    ensures received == payload || exists k: nat :: Empty(buffers(k))
  {
    var up := new Upload(payload);
    received := "";
    var k := 0;
    while true
      invariant up.Valid() && up.payload == payload && fresh(up)
      invariant received == payload[..up.data]
      decreases up.left
    {
      var chunk := up.ReadCallback(buffers(k).size, buffers(k).nmemb);
      if chunk == "" { break; }
      received := received + chunk;
      k := k + 1;
    }
    assert up.left == 0 || Empty(buffers(k));
  }
}
