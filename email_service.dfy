/**
  The email service: templates looked up by id, `{{key}}` placeholders in a
  template's subject, HTML and text replaced by the value given for key
  (every occurrence, key after key), and the senders built on them. Handing
  a mail to the transport is an outcome value; the transport is not modelled.
 */
module EmailService {
  import opened Wrappers
  import opened Strings

  // ---------------------------------------------------------------------
  // Global replacement of a literal pattern

  /** The text `{{key}}` that stands for key in a template. */
  function Placeholder(key: string): (p: string)
    ensures |p| == |key| + 4
  {
    "{{" + key + "}}"
  }

  /** pat occurs in s starting at index i. */
  predicate MatchAt(s: string, pat: string, i: nat) {
    i + |pat| <= |s| && s[i..i + |pat|] == pat
  }

  /** String.prototype.replace with a global pattern: the occurrences of pat
      found scanning s from the left, each starting after the previous one
      ends, are replaced by v. */
  function ReplaceAll(s: string, pat: string, v: string): (r: string)
    requires |pat| > 0
    ensures v == pat ==> r == s
    decreases |s|
  {
    if |s| < |pat| then s
    else if s[..|pat|] == pat then
      assert s == s[..|pat|] + s[|pat|..];
      v + ReplaceAll(s[|pat|..], pat, v)
    else
      assert s == [s[0]] + s[1..];
      [s[0]] + ReplaceAll(s[1..], pat, v)
  }

  /** Where pat occurs nowhere, replacing it changes nothing. */
  lemma {:induction false} ReplaceUnmatched(s: string, pat: string, v: string)
    requires |pat| > 0
    requires forall i :: 0 <= i <= |s| - |pat| ==> !MatchAt(s, pat, i)
    ensures ReplaceAll(s, pat, v) == s
    decreases |s|
  {
    if |s| >= |pat| {
      assert !MatchAt(s, pat, 0);
      forall i | 0 <= i <= |s[1..]| - |pat|
        ensures !MatchAt(s[1..], pat, i)
      {
        assert !MatchAt(s, pat, i + 1);
        assert s[1..][i..i + |pat|] == s[i + 1..i + 1 + |pat|];
      }
      ReplaceUnmatched(s[1..], pat, v);
      assert s == [s[0]] + s[1..];
    }
  }

  /** No occurrence of pat in a + b starts in a and ends in b. */
  predicate NoStraddle(a: string, b: string, pat: string) {
    forall i :: |a| - |pat| < i < |a| && 0 <= i ==> !MatchAt(a + b, pat, i)
  }

  /** Replacement distributes over a concatenation at which no occurrence of
      pat straddles the seam. */
  lemma {:induction false} ReplaceConcat(a: string, b: string, pat: string, v: string)
    requires |pat| > 0 && NoStraddle(a, b, pat)
    ensures ReplaceAll(a + b, pat, v) == ReplaceAll(a, pat, v) + ReplaceAll(b, pat, v)
    decreases |a|
  {
    if a == [] {
      assert a + b == b;
    } else if |a| >= |pat| && a[..|pat|] == pat {
      NoStraddleShift(a, b, pat, |pat|);
      ReplaceConcat(a[|pat|..], b, pat, v);
      MatchFront(a, b, pat);
    } else {
      NoStraddleShift(a, b, pat, 1);
      ReplaceConcat(a[1..], b, pat, v);
      NoMatchFront(a, b, pat);
    }
  }

  /** An occurrence at the front of a is one at the front of a + b. */
  lemma MatchFront(a: string, b: string, pat: string)
    requires |a| >= |pat| && a[..|pat|] == pat
    ensures |a + b| >= |pat| && (a + b)[..|pat|] == pat && (a + b)[|pat|..] == a[|pat|..] + b
  {
    assert (a + b)[..|pat|] == a[..|pat|];
  }

  /** Without an occurrence at the front of a, none straddling the seam,
      a + b has none at its front either. */
  lemma NoMatchFront(a: string, b: string, pat: string)
    requires |pat| > 0 && a != [] && NoStraddle(a, b, pat)
    requires !(|a| >= |pat| && a[..|pat|] == pat)
    ensures !(|a + b| >= |pat| && (a + b)[..|pat|] == pat) && (a + b)[1..] == a[1..] + b
  {
    if |a| >= |pat| {
      assert (a + b)[..|pat|] == a[..|pat|];
    } else {
      assert !MatchAt(a + b, pat, 0);
    }
  }

  lemma NoStraddleShift(a: string, b: string, pat: string, n: nat)
    requires |pat| > 0 && 0 < n <= |a| && NoStraddle(a, b, pat)
    ensures NoStraddle(a[n..], b, pat)
  {
    var rest := a[n..];
    assert (a + b)[n..] == rest + b;
    forall i | |rest| - |pat| < i < |rest| && 0 <= i
      ensures !MatchAt(rest + b, pat, i)
    {
      assert !MatchAt(a + b, pat, i + n);
      if i + |pat| <= |rest + b| {
        assert (rest + b)[i..i + |pat|] == (a + b)[i + n..i + n + |pat|];
      }
    }
  }

  /** A key: a non-empty name without braces. */
  predicate Key(k: string) {
    |k| > 0 && forall i :: 0 <= i < |k| ==> k[i] != '{' && k[i] != '}'
  }

  /** Where the braces of a placeholder are. */
  lemma PlaceholderBraces(k: string)
    requires Key(k)
    ensures forall j :: 0 <= j < |k| + 4 ==> (Placeholder(k)[j] == '{' <==> j < 2)
    ensures forall j :: 0 <= j < |k| + 4 ==> (Placeholder(k)[j] == '}' <==> j >= |k| + 2)
  {
    var p := Placeholder(k);
    forall j | 2 <= j < |k| + 2
      ensures p[j] == k[j - 2]
    {
    }
  }

  /** The characters of an occurrence are those of the pattern. */
  lemma CharAt(s: string, pat: string, i: nat, x: nat)
    requires MatchAt(s, pat, i) && i <= x < i + |pat|
    ensures s[x] == pat[x - i]
  {
    assert s[i..i + |pat|][x - i] == s[x];
  }

  /** An occurrence of the placeholder of k that overlaps an occurrence of
      the placeholder of m is that occurrence, and then k and m are equal. */
  lemma OverlapIsSame(s: string, p: nat, m: string, i: nat, k: string)
    requires Key(k) && Key(m)
    requires MatchAt(s, Placeholder(m), p) && MatchAt(s, Placeholder(k), i)
    requires i < p + |m| + 4 && p < i + |k| + 4
    ensures i == p && k == m
  {
    var pm, pk := Placeholder(m), Placeholder(k);
    PlaceholderBraces(m);
    PlaceholderBraces(k);
    if i < p {
      CharAt(s, pm, p, p);
      CharAt(s, pm, p, p + 1);
      CharAt(s, pk, i, p);
      if p + 1 < i + |pk| {
        CharAt(s, pk, i, p + 1);
      }
      assert false;
    } else if p < i {
      CharAt(s, pk, i, i);
      CharAt(s, pk, i, i + 1);
      CharAt(s, pm, p, i);
      if i + 1 < p + |pm| {
        CharAt(s, pm, p, i + 1);
      }
      assert false;
    }
    if |k| < |m| {
      CharAt(s, pk, p, p + |k| + 2);
      CharAt(s, pm, p, p + |k| + 2);
      assert false;
    } else if |m| < |k| {
      CharAt(s, pm, p, p + |m| + 2);
      CharAt(s, pk, p, p + |m| + 2);
      assert false;
    }
    assert pk == s[i..i + |pk|] == pm;
    assert k == pk[2..|k| + 2] && m == pm[2..|m| + 2];
  }

  /** Replacing the placeholder of k in a text that holds the placeholder of
      m between a and b: the occurrence is replaced by v when m is k, kept
      verbatim otherwise, and a and b are processed as if on their own. In
      particular every occurrence of a placeholder is replaced, wherever it
      stands, and placeholders of other names survive. */
  lemma ReplaceAround(a: string, m: string, b: string, k: string, v: string)
    requires Key(k) && Key(m)
    ensures ReplaceAll(a + Placeholder(m) + b, Placeholder(k), v)
         == ReplaceAll(a, Placeholder(k), v) + (if k == m then v else Placeholder(m)) + ReplaceAll(b, Placeholder(k), v)
  {
    assert a + Placeholder(m) + b == a + (Placeholder(m) + b);
    ReplaceBefore(a, m, b, k, v);
    ReplaceLeading(m, b, k, v);
  }

  /** No occurrence of the placeholder of k straddles the start of a
      placeholder of m, so a is replaced on its own. */
  lemma ReplaceBefore(a: string, m: string, b: string, k: string, v: string)
    requires Key(k) && Key(m)
    ensures ReplaceAll(a + (Placeholder(m) + b), Placeholder(k), v)
         == ReplaceAll(a, Placeholder(k), v) + ReplaceAll(Placeholder(m) + b, Placeholder(k), v)
  {
    var pm, pk := Placeholder(m), Placeholder(k);
    var s := a + (pm + b);
    assert MatchAt(s, pm, |a|) by {
      assert s[|a|..|a| + |pm|] == pm;
    }
    forall i | |a| - |pk| < i < |a| && 0 <= i
      ensures !MatchAt(s, pk, i)
    {
      if MatchAt(s, pk, i) {
        OverlapIsSame(s, |a|, m, i, k);
      }
    }
    ReplaceConcat(a, pm + b, pk, v);
  }

  /** A text that starts with the placeholder of m: that placeholder becomes
      v when m is k and stays otherwise, and the rest is replaced on its own. */
  lemma ReplaceLeading(m: string, b: string, k: string, v: string)
    requires Key(k) && Key(m)
    ensures ReplaceAll(Placeholder(m) + b, Placeholder(k), v)
         == (if k == m then v else Placeholder(m)) + ReplaceAll(b, Placeholder(k), v)
  {
    var pm, pk := Placeholder(m), Placeholder(k);
    var t := pm + b;
    if k == m {
      assert t[..|pk|] == pk;
      assert t[|pk|..] == b;
    } else {
      assert MatchAt(t, pm, 0) by {
        assert t[..|pm|] == pm;
      }
      forall i | |pm| - |pk| < i < |pm| && 0 <= i
        ensures !MatchAt(t, pk, i)
      {
        if MatchAt(t, pk, i) {
          OverlapIsSame(t, 0, m, i, k);
        }
      }
      ReplaceConcat(pm, b, pk, v);
      PlaceholderUnmatched(m, k, v);
    }
  }

  /** The placeholder of m holds no occurrence of another key's placeholder. */
  lemma PlaceholderUnmatched(m: string, k: string, v: string)
    requires Key(k) && Key(m) && k != m
    ensures ReplaceAll(Placeholder(m), Placeholder(k), v) == Placeholder(m)
  {
    var pm, pk := Placeholder(m), Placeholder(k);
    forall i | 0 <= i <= |pm| - |pk|
      ensures !MatchAt(pm, pk, i)
    {
      if MatchAt(pm, pk, i) {
        assert MatchAt(pm, pm, 0);
        OverlapIsSame(pm, 0, m, i, k);
      }
    }
    ReplaceUnmatched(pm, pk, v);
  }

  /** The own properties of a data object, name and value, in the order in
      which Object.keys lists them. */
  type Data = seq<(string, string)>

  /** The text s after replacing the placeholders of data's keys, in order. */
  function Substitute(s: string, data: Data): (r: string)
    ensures NoOpenBraces(s) ==> r == s
  {
    if data == [] then s
    else
      var (key, value) := data[|data| - 1];
      NoOpenBracesUnchanged(s, key, value);
      ReplaceAll(Substitute(s, data[..|data| - 1]), Placeholder(key), value)
  }

  /** s contains no "{{". */
  predicate NoOpenBraces(s: string) {
    forall i :: 0 <= i < |s| - 1 ==> !(s[i] == '{' && s[i + 1] == '{')
  }

  /** s contains no opening brace. */
  predicate BraceFree(s: string) {
    forall i :: 0 <= i < |s| ==> s[i] != '{'
  }

  /** A text without an opening brace holds no placeholder. */
  lemma BraceFreeUnchanged(s: string, k: string, v: string)
    requires BraceFree(s)
    ensures ReplaceAll(s, Placeholder(k), v) == s
  {
    var pat := Placeholder(k);
    forall i | 0 <= i <= |s| - |pat|
      ensures !MatchAt(s, pat, i)
    {
      if MatchAt(s, pat, i) {
        CharAt(s, pat, i, i);
        assert false;
      }
    }
    ReplaceUnmatched(s, pat, v);
  }

  /** A text without "{{" holds no placeholder. */
  lemma NoOpenBracesUnchanged(s: string, k: string, v: string)
    ensures NoOpenBraces(s) ==> ReplaceAll(s, Placeholder(k), v) == s
  {
    if NoOpenBraces(s) {
      var pat := Placeholder(k);
      forall i | 0 <= i <= |s| - |pat|
        ensures !MatchAt(s, pat, i)
      {
        if MatchAt(s, pat, i) {
          CharAt(s, pat, i, i);
          CharAt(s, pat, i, i + 1);
          assert false;
        }
      }
      ReplaceUnmatched(s, pat, v);
    }
  }

  /** Every key of data is a key name. */
  predicate KeyNames(data: Data) {
    forall i :: 0 <= i < |data| ==> Key(data[i].0)
  }

  /** A placeholder whose name is not a key of data is left verbatim, and
      the text around it is processed as if on its own. */
  lemma {:induction false} UnknownPlaceholderKept(a: string, m: string, b: string, data: Data)
    requires Key(m) && KeyNames(data) && Lookup(data, m).None?
    ensures Substitute(a + Placeholder(m) + b, data) == Substitute(a, data) + Placeholder(m) + Substitute(b, data)
  {
    if data != [] {
      var init := data[..|data| - 1];
      var (k, v) := data[|data| - 1];
      UnknownPlaceholderKept(a, m, b, init);
      ReplaceAround(Substitute(a, init), m, Substitute(b, init), k, v);
    }
  }

  /** A placeholder can re-form although no value contains "{{": replacing
      {{a}} inside "{{{{a}}}}" by "a" leaves a fresh {{a}} behind, because the
      scan matches the innermost one only and the result is not searched
      again. */
  lemma PlaceholderCanReform()
    ensures Substitute("{{{{a}}}}", [("a", "a")]) == Placeholder("a")
  {
    var s := "{{{{a}}}}";
    var pat := Placeholder("a");
    assert |pat| == 5 && s[2..][..5] == pat && s[2..][5..] == "}}";
    assert ReplaceAll("}}", pat, "a") == "}}";
    assert ReplaceAll(s[2..], pat, "a") == "a" + "}}";
    assert pat[2] == 'a' && s[1..][..5][2] == '{' && s[1..][1..] == s[2..];
    assert ReplaceAll(s[1..], pat, "a") == "{a}}";
    assert s[..5][2] == '{';
    assert ReplaceAll(s, pat, "a") == "{{a}}";
  }

  // ---------------------------------------------------------------------
  // Templates

  datatype Template = Template(
    id: string,
    name: string,
    category: string,
    subject: string,
    htmlTemplate: string,
    textTemplate: string,
    variables: seq<string>,
    isActive: bool)

  datatype Processed = Processed(subject: string, htmlContent: string, textContent: string)

  /** processTemplate: substitutes every key of data, in order, into the
      subject, the HTML and the text. */
  method ProcessTemplate(t: Template, data: Data) returns (p: Processed)
    ensures p.subject == Substitute(t.subject, data)
    ensures p.htmlContent == Substitute(t.htmlTemplate, data)
    ensures p.textContent == Substitute(t.textTemplate, data)
  {
    var subject := t.subject;
    var htmlContent := t.htmlTemplate;
    var textContent := t.textTemplate;
    for i := 0 to |data|
      invariant subject == Substitute(t.subject, data[..i])
      invariant htmlContent == Substitute(t.htmlTemplate, data[..i])
      invariant textContent == Substitute(t.textTemplate, data[..i])
    {
      var (key, value) := data[i];
      var pattern := Placeholder(key);
      assert data[..i + 1][..i] == data[..i];
      subject := ReplaceAll(subject, pattern, value);
      htmlContent := ReplaceAll(htmlContent, pattern, value);
      textContent := ReplaceAll(textContent, pattern, value);
    }
    assert data[..|data|] == data;
    p := Processed(subject, htmlContent, textContent);
  }

  /** A line break and the indentation of a line of template text. */
  const Indent := "\n          "
  /** The line break and indentation that close a template text. */
  const Close := "\n        "

  const WelcomeTemplate := Template(
    "welcome",
    "Welcome Email",
    "welcome",
    "Welcome to MoneyTree, {{name}}!",
    Indent + "<h1>Welcome to MoneyTree!</h1>"
      + Indent + "<p>Hi {{name}},</p>"
      + Indent + "<p>Thank you for joining MoneyTree! We're excited to help you take control of your finances.</p>"
      + Indent + "<p>Get started by logging into your account:</p>"
      + Indent + "<a href=\"{{loginUrl}}\" class=\"button\">Login to MoneyTree</a>"
      + Indent + "<p>Best regards,<br>The MoneyTree Team</p>"
      + Close,
    Indent + "Welcome to MoneyTree!"
      + "\n"
      + Indent + "Hi {{name}},"
      + "\n"
      + Indent + "Thank you for joining MoneyTree! We're excited to help you take control of your finances."
      + "\n"
      + Indent + "Get started by logging into your account: {{loginUrl}}"
      + "\n"
      + Indent + "Best regards,"
      + Indent + "The MoneyTree Team"
      + Close,
    ["name", "loginUrl"],
    true)

  const BillReminderTemplate := Template(
    "bill-reminder",
    "Bill Reminder",
    "bill_reminder",
    "Bill Due Soon: {{billName}}",
    Indent + "<h1>Bill Reminder</h1>"
      + Indent + "<p>Hi there,</p>"
      + Indent + "<p>This is a reminder that your bill <strong>{{billName}}</strong> for <strong>{{amount}}</strong> is due on <strong>{{dueDate}}</strong>.</p>"
      + Indent + "<p>You have {{daysUntilDue}} days until the due date.</p>"
      + Indent + "<p>Please make sure to pay this bill on time to avoid any late fees.</p>"
      + Indent + "<p>Best regards,<br>MoneyTree</p>"
      + Close,
    Indent + "Bill Reminder"
      + "\n"
      + Indent + "Hi there,"
      + "\n"
      + Indent + "This is a reminder that your bill {{billName}} for {{amount}} is due on {{dueDate}}."
      + "\n"
      + Indent + "You have {{daysUntilDue}} days until the due date."
      + "\n"
      + Indent + "Please make sure to pay this bill on time to avoid any late fees."
      + "\n"
      + Indent + "Best regards,"
      + Indent + "MoneyTree"
      + Close,
    ["billName", "amount", "dueDate", "daysUntilDue"],
    true)

  /** getTemplate: the fixed table of templates, looked up by id. */
  function GetTemplate(id: string): (r: Option<Template>)
    ensures r.Some? <==> id == "welcome" || id == "bill-reminder"
    ensures r.Some? ==> r.value.id == id && r.value.isActive
  {
    if id == "welcome" then Some(WelcomeTemplate)
    else if id == "bill-reminder" then Some(BillReminderTemplate)
    else None
  }

  // ---------------------------------------------------------------------
  // Data objects

  /** The value of property key, if data has it (the last entry for key). */
  function Lookup(data: Data, key: string): (r: Option<string>)
    ensures r.Some? <==> exists i :: 0 <= i < |data| && data[i].0 == key
  {
    if data == [] then None
    else if data[|data| - 1].0 == key then Some(data[|data| - 1].1)
    else Lookup(data[..|data| - 1], key)
  }

  /** The value of a key is that of its last entry. */
  lemma {:induction false} LookupAt(data: Data, key: string, j: nat)
    requires j < |data| && data[j].0 == key
    requires forall i :: j < i < |data| ==> data[i].0 != key
    ensures Lookup(data, key) == Some(data[j].1)
  {
    if j < |data| - 1 {
      LookupAt(data[..|data| - 1], key, j);
    }
  }

  /** Every entry named key given the value v. */
  function SetAll(data: Data, key: string, v: string): (r: Data)
    ensures |r| == |data|
  {
    if data == [] then []
    else
      var last := data[|data| - 1];
      SetAll(data[..|data| - 1], key, v) + [if last.0 == key then (key, v) else last]
  }

  /** Assigning property key: an existing property keeps its place and takes
      the new value, a new one is added last. */
  function Assign(data: Data, key: string, v: string): (r: Data)
  {
    if Lookup(data, key).Some? then SetAll(data, key, v) else data + [(key, v)]
  }

  /** Object spread: the properties of extra assigned one by one. */
  function Spread(data: Data, extra: Data): (r: Data)
  {
    if extra == [] then data
    else Assign(Spread(data, extra[..|extra| - 1]), extra[|extra| - 1].0, extra[|extra| - 1].1)
  }

  /** After an assignment, the property holds the assigned value and every
      other property keeps its value. */
  lemma AssignLookup(data: Data, key: string, v: string, other: string)
    ensures Lookup(Assign(data, key, v), key) == Some(v)
    ensures other != key ==> Lookup(Assign(data, key, v), other) == Lookup(data, other)
  {
    SetAllLookup(data, key, v, key);
    SetAllLookup(data, key, v, other);
    var e := data + [(key, v)];
    assert e[..|e| - 1] == data;
  }

  lemma {:induction false} SetAllLookup(data: Data, key: string, v: string, other: string)
    ensures Lookup(data, key).Some? ==> Lookup(SetAll(data, key, v), key) == Some(v)
    ensures other != key ==> Lookup(SetAll(data, key, v), other) == Lookup(data, other)
  {
    if data != [] {
      var r := SetAll(data, key, v);
      assert r[..|r| - 1] == SetAll(data[..|data| - 1], key, v);
      SetAllLookup(data[..|data| - 1], key, v, key);
      SetAllLookup(data[..|data| - 1], key, v, other);
    }
  }

  /** After a spread, a property of extra holds its value there, and any other
      property keeps its value. */
  lemma {:induction false} SpreadLookup(data: Data, extra: Data, key: string)
    ensures Lookup(Spread(data, extra), key) == if Lookup(extra, key).Some? then Lookup(extra, key) else Lookup(data, key)
  {
    if extra != [] {
      var init := extra[..|extra| - 1];
      SpreadLookup(data, init, key);
      AssignLookup(Spread(data, init), extra[|extra| - 1].0, extra[|extra| - 1].1, key);
    }
  }

  // ---------------------------------------------------------------------
  // Sending by template

  /** The message handed to the mail transport. */
  datatype Mail = Mail(to: Option<string>, subject: string, html: string, text: string)

  /** What sendTemplate does: hands a mail to the transport, or fails with
      an error message and sends nothing. */
  datatype Outcome = Dispatched(mail: Mail) | Failed(error: string)

  /** The error of a send whose template does not exist. */
  function NotFound(id: string): string {
    "Template " + id + " not found"
  }

  /** The outcome of sendTemplate(id, data). */
  function TemplateSend(id: string, data: Data): (r: Outcome)
    ensures r.Failed? <==> id != "welcome" && id != "bill-reminder"
    ensures r.Failed? ==> r.error == NotFound(id)
    ensures r.Dispatched? ==> r.mail.to == Lookup(data, "to")
  {
    match GetTemplate(id)
    case None => Failed(NotFound(id))
    case Some(t) =>
      Dispatched(Mail(Lookup(data, "to"),
        Substitute(t.subject, data), Substitute(t.htmlTemplate, data), Substitute(t.textTemplate, data)))
  }

  /** sendTemplate: looks the template up, fails when it is missing, and
      otherwise processes it and hands the mail to the transport. */
  method SendTemplate(id: string, data: Data) returns (r: Outcome)
    ensures r == TemplateSend(id, data)
  {
    var template := GetTemplate(id);
    if template.None? {
      return Failed(NotFound(id));
    }
    var processed := ProcessTemplate(template.value, data);
    r := Dispatched(Mail(Lookup(data, "to"), processed.subject, processed.htmlContent, processed.textContent));
  }

  /** The base URL of links in mails: NEXTAUTH_URL when set and non-empty. */
  function AppUrl(env: Option<string>): (url: string)
    ensures env.Some? && env.value != "" ==> url == env.value
    ensures !(env.Some? && env.value != "") ==> url == "http://localhost:3001"
  {
    if env.Some? && env.value != "" then env.value else "http://localhost:3001"
  }

  /** Decimal text of an integer, as String(n) writes it. */
  function IntText(n: int): (s: string)
    ensures forall i :: 0 <= i < |s| ==> s[i] != '{' && s[i] != '}'
  {
    if n < 0 then "-" + NatText(-n) else NatText(n)
  }

  function NatText(n: nat): (s: string)
    ensures |s| > 0 && forall i :: 0 <= i < |s| ==> IsDigit(s[i])
  {
    if n < 10 then [DigitChar(n)] else NatText(n / 10) + [DigitChar(n % 10)]
  }

  const MsPerDay := 86400000

  /** Math.ceil of a time difference in days: the least whole number of days
      that covers it. */
  function DaysUntil(target: int, now: int): (d: int)
    ensures (d - 1) * MsPerDay < target - now <= d * MsPerDay
  {
    -((now - target) / MsPerDay)
  }

  /** The record of a bill reminder (BillReminder of types/email.ts, without
      the optional sent date and channel flags). */
  datatype BillReminder = BillReminder(
    id: string, userId: string, billId: string, reminderDate: int, status: string, emailTemplate: string)

  /** The template data of sendBillReminder; dateText stands for
      toLocaleDateString and now for Date.now(). */
  function BillReminderData(reminder: BillReminder, now: int, dateText: string): (d: Data)
    ensures Lookup(d, "to") == Some(reminder.userId)
    ensures Lookup(d, "billName") == Some("Your Bill") && Lookup(d, "amount") == Some("$100.00")
    ensures Lookup(d, "dueDate") == Some(dateText)
    ensures Lookup(d, "daysUntilDue") == Some(IntText(DaysUntil(reminder.reminderDate, now)))
  {
    var d := [("to", reminder.userId), ("billName", "Your Bill"), ("amount", "$100.00"),
      ("dueDate", dateText), ("daysUntilDue", IntText(DaysUntil(reminder.reminderDate, now)))];
    LookupAt(d, "to", 0);
    LookupAt(d, "billName", 1);
    LookupAt(d, "amount", 2);
    LookupAt(d, "dueDate", 3);
    LookupAt(d, "daysUntilDue", 4);
    d
  }

  /** sendBillReminder. */
  function SendBillReminder(reminder: BillReminder, now: int, dateText: string): (r: Outcome)
    ensures r.Dispatched? && r.mail.to == Some(reminder.userId)
  {
    TemplateSend("bill-reminder", BillReminderData(reminder, now, dateText))
  }

  /** The record of a budget alert (BudgetAlert of types/email.ts; the
      percentage is kept as the scheduler computed it, see Percent). */
  datatype BudgetAlert = BudgetAlert(
    id: string, userId: string, budgetId: string, alertType: string, threshold: Percent,
    triggeredAt: int, status: string)

  /** A number of the IEEE kind a quotient can be: finite, infinite or NaN. */
  datatype Percent = Finite(value: real) | PosInf | NegInf | NaN

  /** The template data of sendBudgetAlert. */
  function BudgetAlertData(alert: BudgetAlert): (d: Data)
    ensures Lookup(d, "to") == Some(alert.userId) && Lookup(d, "alertType") == Some(alert.alertType)
    ensures Lookup(d, "budgetName") == Some("Your Budget") && Lookup(d, "spentAmount") == Some("$500.00")
    ensures Lookup(d, "budgetAmount") == Some("$600.00") && Lookup(d, "remainingAmount") == Some("$100.00")
  {
    var d := [("to", alert.userId), ("budgetName", "Your Budget"), ("spentAmount", "$500.00"),
      ("budgetAmount", "$600.00"), ("remainingAmount", "$100.00"), ("alertType", alert.alertType)];
    LookupAt(d, "to", 0);
    LookupAt(d, "budgetName", 1);
    LookupAt(d, "spentAmount", 2);
    LookupAt(d, "budgetAmount", 3);
    LookupAt(d, "remainingAmount", 4);
    LookupAt(d, "alertType", 5);
    d
  }

  /** sendBudgetAlert: there is no budget-alert template, so it always fails. */
  function SendBudgetAlert(alert: BudgetAlert): (r: Outcome)
    ensures r == Failed(NotFound("budget-alert"))
  {
    TemplateSend("budget-alert", BudgetAlertData(alert))
  }

  /** The template data of sendWelcomeEmail: the name, or "there" when it is
      missing or empty. */
  function WelcomeData(email: string, name: Option<string>, env: Option<string>): (d: Data)
    ensures Lookup(d, "to") == Some(email) && Lookup(d, "name") == Some(Greeting(name))
    ensures Lookup(d, "loginUrl") == Some(AppUrl(env) + "/auth/signin")
  {
    var d := [("to", email), ("name", Greeting(name)), ("loginUrl", AppUrl(env) + "/auth/signin")];
    LookupAt(d, "to", 0);
    LookupAt(d, "name", 1);
    LookupAt(d, "loginUrl", 2);
    d
  }

  /** sendWelcomeEmail. */
  function SendWelcomeEmail(email: string, name: Option<string>, env: Option<string>): (r: Outcome)
    ensures r.Dispatched? && r.mail.to == Some(email)
  {
    TemplateSend("welcome", WelcomeData(email, name, env))
  }

  /** sendInvestmentAlert: there is no investment-alert template, so it
      always fails. */
  function SendInvestmentAlert(email: string, symbol: string, alertType: string, message: string, env: Option<string>): (r: Outcome)
    ensures r == Failed(NotFound("investment-alert"))
  {
    TemplateSend("investment-alert",
      [("to", email), ("symbol", symbol), ("alertType", alertType), ("message", message),
       ("dashboardUrl", AppUrl(env) + "/investments")])
  }

  /** The template data of sendNewsletter: the address, then the
      newsletter's own properties (which may override it), then the
      unsubscribe link. */
  function NewsletterData(email: string, newsletter: Data, env: Option<string>): (d: Data)
    ensures Lookup(d, "unsubscribeUrl") == Some(AppUrl(env) + "/unsubscribe")
    ensures Lookup(d, "to") == if Lookup(newsletter, "to").Some? then Lookup(newsletter, "to") else Some(email)
    ensures forall k :: k != "to" && k != "unsubscribeUrl" ==> Lookup(d, k) == Lookup(newsletter, k)
  {
    var base := [("to", email)];
    NewsletterLookup(email, newsletter, AppUrl(env) + "/unsubscribe");
    Assign(Spread(base, newsletter), "unsubscribeUrl", AppUrl(env) + "/unsubscribe")
  }

  /** The properties of the newsletter data, key by key. */
  lemma NewsletterLookup(email: string, newsletter: Data, url: string)
    ensures var d := Assign(Spread([("to", email)], newsletter), "unsubscribeUrl", url);
      && Lookup(d, "unsubscribeUrl") == Some(url)
      && Lookup(d, "to") == (if Lookup(newsletter, "to").Some? then Lookup(newsletter, "to") else Some(email))
      && forall k :: k != "to" && k != "unsubscribeUrl" ==> Lookup(d, k) == Lookup(newsletter, k)
  {
    var base := [("to", email)];
    var spread := Spread(base, newsletter);
    AssignLookup(spread, "unsubscribeUrl", url, "to");
    SpreadLookup(base, newsletter, "to");
    LookupAt(base, "to", 0);
    forall k | k != "to" && k != "unsubscribeUrl"
      ensures Lookup(Assign(spread, "unsubscribeUrl", url), k) == Lookup(newsletter, k)
    {
      AssignLookup(spread, "unsubscribeUrl", url, k);
      SpreadLookup(base, newsletter, k);
      assert Lookup(base, k) == Lookup([], k);
    }
  }

  /** sendNewsletter: there is no newsletter template, so it always fails. */
  function SendNewsletter(email: string, newsletter: Data, env: Option<string>): (r: Outcome)
    ensures r == Failed(NotFound("newsletter"))
  {
    TemplateSend("newsletter", NewsletterData(email, newsletter, env))
  }

  // ---------------------------------------------------------------------
  // What the senders that have a template send

  /** The name a welcome mail greets: the given name, or "there". */
  function Greeting(name: Option<string>): (g: string)
    ensures name.Some? && name.value != "" ==> g == name.value
    ensures !(name.Some? && name.value != "") ==> g == "there"
  {
    if name.Some? && name.value != "" then name.value else "there"
  }

  /** A text whose one placeholder names a key of data that occurs once, with
      a value and surroundings free of opening braces, becomes the text with
      that value in its place. */
  lemma {:induction false} SubstituteOnce(a: string, m: string, b: string, data: Data, j: nat)
    requires Key(m) && KeyNames(data) && BraceFree(a) && BraceFree(b)
    requires j < |data| && data[j].0 == m && BraceFree(data[j].1)
    requires forall i :: 0 <= i < |data| && i != j ==> data[i].0 != m
    ensures Substitute(a + Placeholder(m) + b, data) == a + data[j].1 + b
  {
    var init := data[..|data| - 1];
    var (k, v) := data[|data| - 1];
    if j < |data| - 1 {
      SubstituteOnce(a, m, b, init, j);
      BraceFreeUnchanged(a + data[j].1 + b, k, v);
    } else {
      UnknownPlaceholderKept(a, m, b, init);
      SubstituteBraceFree(a, init);
      SubstituteBraceFree(b, init);
      ReplaceAround(a, m, b, m, v);
      BraceFreeUnchanged(a, m, v);
      BraceFreeUnchanged(b, m, v);
    }
  }

  /** Substitution leaves a text without opening braces unchanged. */
  lemma SubstituteBraceFree(s: string, data: Data)
    requires BraceFree(s)
    ensures Substitute(s, data) == s
  {
    assert NoOpenBraces(s);
  }

  /** The welcome mail's subject greets the user by name (a name with no
      opening brace, which the later keys cannot touch). */
  lemma WelcomeSubject(email: string, name: Option<string>, env: Option<string>)
    requires name.Some? ==> BraceFree(name.value)
    ensures SendWelcomeEmail(email, name, env).mail.subject == "Welcome to MoneyTree, " + Greeting(name) + "!"
  {
    assert WelcomeTemplate.subject == "Welcome to MoneyTree, " + Placeholder("name") + "!";
    WelcomeDataOnce(email, name, env);
  }

  lemma WelcomeDataOnce(email: string, name: Option<string>, env: Option<string>)
    requires name.Some? ==> BraceFree(name.value)
    ensures Substitute("Welcome to MoneyTree, " + Placeholder("name") + "!", WelcomeData(email, name, env))
         == "Welcome to MoneyTree, " + Greeting(name) + "!"
  {
    var d := WelcomeData(email, name, env);
    WelcomeDataKeys(email, Greeting(name), AppUrl(env) + "/auth/signin");
    assert BraceFree("Welcome to MoneyTree, ") && BraceFree("!") && BraceFree(d[1].1);
    SubstituteOnce("Welcome to MoneyTree, ", "name", "!", d, 1);
  }

  /** The keys of the welcome data are key names, and "name" is only the
      second. */
  lemma WelcomeDataKeys(to: string, greeting: string, login: string)
    ensures var d := [("to", to), ("name", greeting), ("loginUrl", login)];
      KeyNames(d) && d[1] == ("name", greeting)
      && forall i :: 0 <= i < |d| && i != 1 ==> d[i].0 != "name"
  {
    var d := [("to", to), ("name", greeting), ("loginUrl", login)];
    assert Key("to") && Key("name") && Key("loginUrl");
    assert forall i :: 0 <= i < |d| ==> Key(d[i].0);
  }

  /** The bill reminder's subject names the bill, whatever the reminder. */
  lemma BillReminderSubject(reminder: BillReminder, now: int, dateText: string)
    ensures SendBillReminder(reminder, now, dateText).mail.subject == "Bill Due Soon: Your Bill"
  {
    assert BillReminderTemplate.subject == "Bill Due Soon: " + Placeholder("billName") + "";
    BillDataOnce(reminder, now, dateText);
  }

  lemma BillDataOnce(reminder: BillReminder, now: int, dateText: string)
    ensures Substitute("Bill Due Soon: " + Placeholder("billName") + "", BillReminderData(reminder, now, dateText))
         == "Bill Due Soon: Your Bill"
  {
    var d := BillReminderData(reminder, now, dateText);
    BillDataKeys(reminder.userId, dateText, IntText(DaysUntil(reminder.reminderDate, now)));
    assert BraceFree("Bill Due Soon: ") && BraceFree("") && BraceFree(d[1].1);
    SubstituteOnce("Bill Due Soon: ", "billName", "", d, 1);
  }

  /** The keys of the bill reminder data are key names, and "billName" is
      only the second. */
  lemma BillDataKeys(to: string, date: string, days: string)
    ensures var d := [("to", to), ("billName", "Your Bill"), ("amount", "$100.00"), ("dueDate", date), ("daysUntilDue", days)];
      KeyNames(d) && d[1] == ("billName", "Your Bill")
      && forall i :: 0 <= i < |d| && i != 1 ==> d[i].0 != "billName"
  {
    var d := [("to", to), ("billName", "Your Bill"), ("amount", "$100.00"), ("dueDate", date), ("daysUntilDue", days)];
    assert Key("to") && Key("billName") && Key("amount") && Key("dueDate") && Key("daysUntilDue");
    assert forall i :: 0 <= i < |d| ==> Key(d[i].0);
  }
}
