/*
 * The text logic of the contact form: JavaScript's whitespace class and
 * trim, the e-mail pattern ^[^\s@]+@[^\s@]+\.[^\s@]+$ applied to the
 * trimmed address, the ordered field checks, and the mailto: URI whose
 * `subject` and `body` header fields follow section 2 of RFC 6068.
 *
 * Strings are sequences of Unicode scalar values; the percent-encoder is a
 * parameter `enc`, since its UTF-8 encoding rules are not part of this model.
 */
module ContactRules {
  import opened Wrappers

  const RECIPIENT: string := "anurudhs567@gmail.com"
  /** The URI up to the value of its `subject` header field. */
  const MAILTO_HEAD: string := "mailto:" + RECIPIENT + "?subject="
  /** Separator and name of the `body` header field. */
  const BODY_KEY: string := "&body="
  const MSG_REQUIRED: string := "All fields are required."
  const MSG_INVALID_EMAIL: string := "Invalid email address."
  const MSG_OPENED: string := "Mail client opened. Please send."

  // ------------------------------------------------------------ whitespace

  /**
   * The characters of `\s` in a JavaScript regular expression, which are also
   * the characters `String.prototype.trim` strips: the WhiteSpace and
   * LineTerminator code points of ECMAScript.
   */
  predicate IsSpace(c: char)
  {
    var n := c as int;
    n == 0x09 || n == 0x0A || n == 0x0B || n == 0x0C || n == 0x0D || n == 0x20 ||
    n == 0xA0 || n == 0x1680 || (0x2000 <= n <= 0x200A) ||
    n == 0x2028 || n == 0x2029 || n == 0x202F || n == 0x205F || n == 0x3000 || n == 0xFEFF
  }

  predicate AllSpace(s: string)
  {
    forall k :: 0 <= k < |s| ==> IsSpace(s[k])
  }

  /** `s` without its leading whitespace. */
  function TrimStart(s: string): (r: string)
    ensures |r| <= |s| && r == s[|s| - |r|..]
    ensures AllSpace(s[..|s| - |r|])
    ensures r != [] ==> !IsSpace(r[0])
    decreases |s|
  {
    if s != [] && IsSpace(s[0]) then TrimStart(s[1..]) else s
  }

  /** `s` without its trailing whitespace. */
  function TrimEnd(s: string): (r: string)
    ensures |r| <= |s| && r == s[..|r|]
    ensures AllSpace(s[|r|..])
    ensures r != [] ==> !IsSpace(r[|r| - 1])
    decreases |s|
  {
    if s != [] && IsSpace(s[|s| - 1]) then
      var init := s[..|s| - 1];
      var r := TrimEnd(init);
      assert init[..|r|] == s[..|r|];
      assert s[|r|..] == init[|r|..] + [s[|s| - 1]];
      r
    else s
  }

  /** `String.prototype.trim`. */
  function Trim(s: string): string
  {
    TrimEnd(TrimStart(s))
  }

  /** Trim keeps one contiguous slice of its input... */
  lemma TrimSlice(s: string)
    ensures var i := |s| - |TrimStart(s)|;
      i + |Trim(s)| <= |s| && Trim(s) == s[i..i + |Trim(s)|]
  {
    var t := TrimStart(s);
    var i := |s| - |t|;
    var r := TrimEnd(t);
    assert t == s[i..];
    assert r == t[..|r|];
    SliceOfSuffix(s, i, |r|);
  }

  /** ...and what it removes on either side of that slice is whitespace. */
  lemma TrimRemovesOnlySpace(s: string)
    ensures var i := |s| - |TrimStart(s)|; var j := i + |Trim(s)|;
      j <= |s| && AllSpace(s[..i]) && AllSpace(s[j..])
  {
    var t := TrimStart(s);
    var r := TrimEnd(t);
    assert s[|s| - |t| + |r|..] == t[|r|..];
  }

  lemma SliceOfSuffix(s: string, i: nat, n: nat)
    requires i + n <= |s|
    ensures s[i..][..n] == s[i..i + n]
  {
  }

  /** What Trim leaves neither starts nor ends with whitespace. */
  lemma TrimmedEnds(s: string)
    ensures Trim(s) != [] ==> !IsSpace(Trim(s)[0]) && !IsSpace(Trim(s)[|Trim(s)| - 1])
  {
    var t := TrimStart(s);
    var r := TrimEnd(t);
    if r != [] {
      assert r[0] == t[0];
    }
  }

  /** A field is blank after trimming exactly when it consists of whitespace only. */
  lemma {:induction false} BlankIffAllSpace(s: string)
    ensures Trim(s) == [] <==> AllSpace(s)
  {
    var t := TrimStart(s);
    if t == [] {
      assert s[..|s|] == s;
    } else {
      assert !IsSpace(s[|s| - |t|]);
      assert !IsSpace(t[0]) && t[0..] == t;
    }
  }

  lemma TrimIdempotent(s: string)
    ensures Trim(Trim(s)) == Trim(s)
  {
    TrimmedEnds(s);
  }

  // ---------------------------------------------------------- e-mail shape

  /** A character of the class [^\s@]. */
  predicate AddressChar(c: char)
  {
    c != '@' && !IsSpace(c)
  }

  /** A match of [^\s@]+. */
  predicate AddressRun(s: string)
  {
    |s| > 0 && forall k :: 0 <= k < |s| ==> AddressChar(s[k])
  }

  /** `s` is in the language of ^[^\s@]+@[^\s@]+\.[^\s@]+$. */
  predicate MatchesEmailPattern(s: string)
  {
    exists a, d :: 0 <= a < d < |s| && s[a] == '@' && s[d] == '.' &&
      AddressRun(s[..a]) && AddressRun(s[a + 1..d]) && AddressRun(s[d + 1..])
  }

  /** The address check of the contact form: the pattern, tested on the trimmed input. */
  predicate IsValidEmail(email: string)
  {
    MatchesEmailPattern(Trim(email))
  }

  /**
   * The shape the pattern describes, stated directly: no whitespace, exactly
   * one '@', something before it, and a '.' after it that is neither the
   * first nor the last character of the part after the '@'.
   */
  predicate WellFormedAddress(t: string)
  {
    (forall k :: 0 <= k < |t| ==> !IsSpace(t[k])) &&
    exists a :: 0 < a < |t| && t[a] == '@' &&
      (forall k :: 0 <= k < |t| && t[k] == '@' ==> k == a) &&
      (exists d :: a + 1 < d < |t| - 1 && t[d] == '.')
  }

  lemma RunChar(s: string, lo: nat, hi: nat, k: nat)
    requires lo <= k < hi <= |s| && AddressRun(s[lo..hi])
    ensures AddressChar(s[k])
  {
    assert s[lo..hi][k - lo] == s[k];
  }

  lemma RunOfChars(s: string, lo: nat, hi: nat)
    requires lo < hi <= |s|
    requires forall k :: lo <= k < hi ==> AddressChar(s[k])
    ensures AddressRun(s[lo..hi])
  {
    forall k | 0 <= k < hi - lo ensures AddressChar(s[lo..hi][k]) {
      assert s[lo..hi][k] == s[lo + k];
    }
  }

  lemma PatternGivesShape(t: string, a: nat, d: nat)
    requires a < d < |t| && t[a] == '@' && t[d] == '.'
    requires AddressRun(t[..a]) && AddressRun(t[a + 1..d]) && AddressRun(t[d + 1..])
    ensures WellFormedAddress(t)
  {
    assert t[..a] == t[0..a] && t[d + 1..] == t[d + 1..|t|];
    forall k | 0 <= k < |t|
      ensures !IsSpace(t[k]) && (t[k] == '@' ==> k == a)
    {
      if k < a {
        RunChar(t, 0, a, k);
      } else if a < k < d {
        RunChar(t, a + 1, d, k);
      } else if d < k {
        RunChar(t, d + 1, |t|, k);
      }
    }
  }

  lemma ShapeGivesPattern(t: string)
    requires WellFormedAddress(t)
    ensures MatchesEmailPattern(t)
  {
    var a :| 0 < a < |t| && t[a] == '@' &&
      (forall k :: 0 <= k < |t| && t[k] == '@' ==> k == a) &&
      (exists d :: a + 1 < d < |t| - 1 && t[d] == '.');
    var d :| a + 1 < d < |t| - 1 && t[d] == '.';
    RunOfChars(t, 0, a);
    RunOfChars(t, a + 1, d);
    RunOfChars(t, d + 1, |t|);
    assert t[..a] == t[0..a] && t[d + 1..] == t[d + 1..|t|];
  }

  lemma PatternIsWellFormedAddress(t: string)
    ensures MatchesEmailPattern(t) <==> WellFormedAddress(t)
  {
    if MatchesEmailPattern(t) {
      var a, d :| 0 <= a < d < |t| && t[a] == '@' && t[d] == '.' &&
        AddressRun(t[..a]) && AddressRun(t[a + 1..d]) && AddressRun(t[d + 1..]);
      PatternGivesShape(t, a, d);
    }
    if WellFormedAddress(t) {
      ShapeGivesPattern(t);
    }
  }

  /** The address check holds exactly when the trimmed input is a well-formed address. */
  lemma ValidEmailIff(email: string)
    ensures IsValidEmail(email) <==> WellFormedAddress(Trim(email))
  {
    PatternIsWellFormedAddress(Trim(email));
  }

  lemma ValidEmailExample()
    ensures IsValidEmail("a@b.c")
  {
    var t := "a@b.c";
    assert TrimStart(t) == t && TrimEnd(t) == t;
    assert t[1] == '@' && t[3] == '.';
    assert t[..1] == "a" && t[2..3] == "b" && t[4..] == "c";
  }

  lemma InvalidEmailExample()
    ensures !IsValidEmail("a@b")
  {
    var t := "a@b";
    assert TrimStart(t) == t && TrimEnd(t) == t;
    assert forall d :: 0 <= d < |t| ==> t[d] != '.';
  }

  // ------------------------------------------------------- field checks

  /**
   * The submit checks in order: a blank field first, then the address.
   * None when the form may be sent, otherwise the message to show.
   */
  function CheckFields(name: string, email: string, message: string): Option<string>
  {
    if Trim(name) == [] || Trim(email) == [] || Trim(message) == [] then Some(MSG_REQUIRED)
    else if !IsValidEmail(email) then Some(MSG_INVALID_EMAIL)
    else None
  }

  /** A blank field is reported as such whatever the address looks like. */
  lemma BlankFieldReportedFirst(name: string, email: string, message: string)
    requires AllSpace(name) || AllSpace(email) || AllSpace(message)
    ensures CheckFields(name, email, message) == Some(MSG_REQUIRED)
  {
    BlankIffAllSpace(name);
    BlankIffAllSpace(email);
    BlankIffAllSpace(message);
  }

  /** With every field filled in, a malformed address is reported. */
  lemma InvalidEmailReported(name: string, email: string, message: string)
    requires !AllSpace(name) && !AllSpace(email) && !AllSpace(message)
    requires !WellFormedAddress(Trim(email))
    ensures CheckFields(name, email, message) == Some(MSG_INVALID_EMAIL)
  {
    BlankIffAllSpace(name);
    BlankIffAllSpace(email);
    BlankIffAllSpace(message);
    ValidEmailIff(email);
  }

  /** The form is accepted exactly when name and message are not blank and the address is well formed. */
  lemma AcceptedIff(name: string, email: string, message: string)
    ensures CheckFields(name, email, message) == None <==>
      !AllSpace(name) && !AllSpace(message) && WellFormedAddress(Trim(email))
  {
    BlankIffAllSpace(name);
    BlankIffAllSpace(email);
    BlankIffAllSpace(message);
    ValidEmailIff(email);
  }

  // -------------------------------------------------------------- mailto

  /** `parts.join(sep)`. */
  function Join(parts: seq<string>, sep: string): string
    decreases |parts|
  {
    if |parts| == 0 then ""
    else if |parts| == 1 then parts[0]
    else parts[0] + sep + Join(parts[1..], sep)
  }

  /** `[a, b, c, d].join(sep)`. */
  lemma JoinFour(a: string, b: string, c: string, d: string, sep: string)
    ensures Join([a, b, c, d], sep) == a + sep + b + sep + c + sep + d
  {
    assert [a, b, c, d][1..] == [b, c, d];
    assert [b, c, d][1..] == [c, d];
    assert [c, d][1..] == [d];
    assert Join([c, d], sep) == c + sep + d;
    assert Join([b, c, d], sep) == b + sep + (c + sep + d);
  }

  function Subject(name: string): string
  {
    "Contact from " + Trim(name)
  }

  function Body(name: string, email: string, message: string): string
  {
    Join(["Name: " + Trim(name), "Email: " + Trim(email), "", Trim(message)], "\n")
  }

  /** The address the browser is sent to on a valid submit. */
  function MailtoUrl(enc: string -> string, name: string, email: string, message: string): string
  {
    MAILTO_HEAD + enc(Subject(name)) + BODY_KEY + enc(Body(name, email, message))
  }

  /** The body reads: the name line, the e-mail line, an empty line, then the message. */
  lemma BodyLayout(name: string, email: string, message: string)
    ensures Body(name, email, message) ==
      ("Name: " + Trim(name)) + "\n" + ("Email: " + Trim(email)) + "\n" + "" + "\n" + Trim(message)
  {
    JoinFour("Name: " + Trim(name), "Email: " + Trim(email), "", Trim(message), "\n");
  }

  /** The text of `s` before its first `c` (all of `s` when there is none). */
  function UpTo(s: string, c: char): (r: string)
    ensures |r| <= |s| && r == s[..|r|]
    ensures c !in r
    ensures |r| < |s| ==> s[|r|] == c
    decreases |s|
  {
    if s == [] || s[0] == c then [] else [s[0]] + UpTo(s[1..], c)
  }

  /**
   * Reads the `subject` and `body` header fields back out of a mailto: URI
   * addressed to the recipient, as a mail client splits a query at '&'.
   */
  function ParseMailto(url: string): Option<(string, string)>
  {
    ParseFields(MAILTO_HEAD, url)
  }

  /** Splits `head` + subject + "&body=" + body, the subject ending at the first '&'. */
  function ParseFields(head: string, url: string): Option<(string, string)>
  {
    if |url| < |head| || url[..|head|] != head then None
    else
      var rest := url[|head|..];
      var subject := UpTo(rest, '&');
      var tail := rest[|subject|..];
      if |tail| < |BODY_KEY| || tail[..|BODY_KEY|] != BODY_KEY then None
      else Some((subject, tail[|BODY_KEY|..]))
  }

  lemma {:induction false} UpToStopsAtFirst(a: string, b: string, c: char)
    requires c !in a && |b| > 0 && b[0] == c
    ensures UpTo(a + b, c) == a
    decreases |a|
  {
    if a != [] {
      assert (a + b)[1..] == a[1..] + b;
      UpToStopsAtFirst(a[1..], b, c);
    }
  }

  lemma ParseFieldsRoundTrip(head: string, subject: string, body: string)
    requires '&' !in subject
    ensures ParseFields(head, head + subject + BODY_KEY + body) == Some((subject, body))
  {
    var url := head + subject + BODY_KEY + body;
    var tail := BODY_KEY + body;
    assert url == head + (subject + tail);
    assert url[..|head|] == head;
    assert url[|head|..] == subject + tail;
    assert BODY_KEY[0] == '&';
    UpToStopsAtFirst(subject, tail, '&');
    assert (subject + tail)[|subject|..] == tail;
    assert tail[..|BODY_KEY|] == BODY_KEY;
    assert tail[|BODY_KEY|..] == body;
  }

  /**
   * Since the encoded subject holds no '&' (the encoder escapes it), the two
   * header fields of the URI are exactly the encoded subject and body.
   */
  lemma MailtoRoundTrip(enc: string -> string, name: string, email: string, message: string)
    requires '&' !in enc(Subject(name))
    ensures ParseMailto(MailtoUrl(enc, name, email, message)) ==
      Some((enc(Subject(name)), enc(Body(name, email, message))))
  {
    ParseFieldsRoundTrip(MAILTO_HEAD, enc(Subject(name)), enc(Body(name, email, message)));
  }
}
