/** The recipient validator against the formatter that turns what it accepts into an address. */
module Recipients {
  import opened Wrappers

  const DEFAULT_SERVER := "s.whatsapp.net"

  datatype Address = Address(user: string, server: string)

  predicate IsDigit(c: char) {
    '0' <= c <= '9'
  }

  /** \d+ */
  predicate Digits(s: string) {
    s != "" && forall i | 0 <= i < |s| :: IsDigit(s[i])
  }

  /** strings.TrimPrefix(s, "+") */
  function TrimPlus(s: string): string {
    if s != "" && s[0] == '+' then s[1..] else s
  }

  /** strings.Cut: around the first c. */
  function Cut(s: string, c: char): (r: (string, string, bool))
    ensures r.2 ==> s == r.0 + [c] + r.1
    ensures !r.2 ==> r == (s, "", false)
    ensures c !in r.0 && (r.2 <==> c in s)
  {
    if s == "" then ("", "", false)
    else if s[0] == c then ("", s[1..], true)
    else
      var (before, after, found) := Cut(s[1..], c);
      assert s == [s[0]] + s[1..];
      ([s[0]] + before, after, found)
  }

  /** ^\+?[1-9]\d{6,14}$ */
  predicate Phone(s: string) {
    var d := TrimPlus(s);
    7 <= |d| <= 15 && Digits(d) && d[0] != '0'
  }

  /** ^\d+(-\d+)?$ */
  predicate JIDUser(u: string) {
    var (a, b, dash) := Cut(u, '-');
    Digits(a) && (dash ==> Digits(b))
  }

  predicate Recipient(s: string) {
    if s == "" then false
    else
      var (user, server, hasServer) := Cut(s, '@');
      if !hasServer then Phone(s)
      else if server == "" || '@' in server then false
      else JIDUser(TrimPlus(user))
  }

  /** FormatRecipient over the client library's parser; None is a parse error. */
  function Formatted(parse: string -> Option<Address>, to: string): Address {
    var t := TrimPlus(to);
    if '@' in t then
      var p := parse(t);
      if p.None? then Address(t, DEFAULT_SERVER) else p.value
    else Address(t, DEFAULT_SERVER)
  }

  /** By value, for every string: one leading plus is dropped, and what has no at-sign or cannot be parsed goes to the
      default server as it is. */
  lemma FormattedIs(parse: string -> Option<Address>, t: string)
    ensures var a := if '@' in t && parse(t) != None then parse(t).value else Address(t, "s.whatsapp.net");
            Formatted(parse, "+" + t) == a && (t == "" || t[0] != '+' ==> Formatted(parse, t) == a)
  {
    assert ("+" + t)[1..] == t;
  }

  method FormatRecipient(parse: string -> Option<Address>, to: string) returns (r: Address)
    ensures r == Formatted(parse, to)
  {
    var t := to;
    if t != "" && t[0] == '+' {
      t := t[1..];
    }
    for i := 0 to |t|
      invariant '@' !in t[..i]
    {
      if t[i] == '@' {
        var p := parse(t);
        if p.None? {
          return Address(t, DEFAULT_SERVER);
        }
        return p.value;
      }
    }
    assert t[..|t|] == t;
    return Address(t, DEFAULT_SERVER);
  }

  /** A routable full address. */
  ghost predicate Routable(u: string, server: string) {
    JIDUser(u) && server != "" && '@' !in server
  }

  /** What is assumed of the parser: a routable address comes back as its two halves. */
  ghost predicate ParsesHalves(parse: string -> Option<Address>) {
    forall u, server | Routable(u, server) :: parse(u + "@" + server) == Some(Address(u, server))
  }

  lemma {:induction false} CutUnique(before: string, c: char, after: string)
    requires c !in before
    ensures Cut(before + [c] + after, c) == (before, after, true)
  {
    if before != "" {
      CutUnique(before[1..], c, after);
      assert (before + [c] + after)[1..] == before[1..] + [c] + after;
      assert [before[0]] + before[1..] == before;
    } else {
      assert before + [c] + after == [c] + after;
    }
  }

  lemma {:induction false} CutTrimmed(s: string)
    ensures Cut(TrimPlus(s), '@') == (TrimPlus(Cut(s, '@').0), Cut(s, '@').1, Cut(s, '@').2)
  {
    if s != "" && s[0] == '+' {
      var (before, after, found) := Cut(s[1..], '@');
      assert ([s[0]] + before)[1..] == before;
    }
  }

  /** The validator trims a '+' after cutting at '@', the formatter before: on every string the two agree. */
  lemma TrimBeforeOrAfterCut(s: string)
    ensures Cut(TrimPlus(s), '@').0 == TrimPlus(Cut(s, '@').0)
    ensures Cut(TrimPlus(s), '@').1 == Cut(s, '@').1
    ensures '@' in TrimPlus(s) <==> '@' in s
  {
    CutTrimmed(s);
  }

  lemma {:induction false} JIDUserHasNoAt(u: string)
    requires JIDUser(u)
    ensures '@' !in u
  {
    var (a, b, dash) := Cut(u, '-');
    assert u == if dash then a + ['-'] + b else a;
  }

  /** A full address is accepted exactly when, without its '+', it is a routable local part, an '@' and a
      server; the formatter then gives back exactly those halves. */
  lemma AddressAcceptedIff(parse: string -> Option<Address>, s: string)
    requires ParsesHalves(parse) && '@' in s
    ensures Recipient(s) <==> exists u, server :: Routable(u, server) && TrimPlus(s) == u + "@" + server
    ensures Recipient(s) ==> var f := Formatted(parse, s);
              Routable(f.user, f.server) && TrimPlus(s) == f.user + "@" + f.server
  {
    var (user, server, _) := Cut(s, '@');
    CutTrimmed(s);
    if Recipient(s) {
      assert Routable(TrimPlus(user), server);
      assert TrimPlus(s) == TrimPlus(user) + "@" + server;
    }
    if u, v :| Routable(u, v) && TrimPlus(s) == u + "@" + v {
      JIDUserHasNoAt(u);
      CutUnique(u, '@', v);
    }
  }

  /** A bare number is accepted exactly when the formatter's local part is 7 to 15 digits without a leading
      zero; it goes to the default server. */
  lemma NumberAcceptedIff(parse: string -> Option<Address>, s: string)
    requires '@' !in s
    ensures Recipient(s) <==> var u := Formatted(parse, s).user; 7 <= |u| <= 15 && Digits(u) && u[0] != '0'
    ensures Formatted(parse, s).server == DEFAULT_SERVER
  {
    TrimBeforeOrAfterCut(s);
  }

  lemma {:induction false} DigitsCut(s: string)
    requires Digits(s)
    ensures Cut(s, '-') == (s, "", false)
  {
    if |s| > 1 {
      assert forall i | 0 <= i < |s| - 1 :: s[1..][i] == s[i + 1];
      DigitsCut(s[1..]);
    }
  }

  /** Digits, a hyphen, digits. */
  ghost predicate Hyphenated(u: string, k: nat) {
    k < |u| && u[k] == '-' && Digits(u[..k]) && Digits(u[k + 1..])
  }

  lemma DigitsIff(s: string)
    ensures Digits(s) <==> s != "" && forall c | c in s :: c in "0123456789"
  {
    forall i | 0 <= i < |s| && s[i] in "0123456789" ensures IsDigit(s[i]) {
    }
    forall c | c in s && IsDigit(c) ensures c in "0123456789" {
      DigitNamed(c);
    }
  }

  lemma DigitNamed(c: char)
    requires IsDigit(c)
    ensures c in "0123456789"
  {
    assert "0123456789"[c as int - '0' as int] == c;
  }

  lemma JIDUserIff(u: string)
    ensures JIDUser(u) <==> Digits(u) || exists k :: Hyphenated(u, k)
  {
    if Digits(u) {
      DigitsCut(u);
    }
    if k: nat :| Hyphenated(u, k) {
      assert u == u[..k] + ['-'] + u[k + 1..];
      CutUnique(u[..k], '-', u[k + 1..]);
    }
    if JIDUser(u) && Cut(u, '-').2 {
      assert Hyphenated(u, |Cut(u, '-').0|);
    }
  }

  /** Everything the validator accepts is formatted to an address whose local part is digits or digits-digits. */
  lemma AcceptedIsRoutable(parse: string -> Option<Address>, s: string)
    requires ParsesHalves(parse) && Recipient(s)
    ensures var u := Formatted(parse, s).user;
            JIDUser(u) && (Digits(u) || exists k :: Hyphenated(u, k))
  {
    JIDUserIff(Formatted(parse, s).user);
    if '@' in s {
      AddressAcceptedIff(parse, s);
    } else {
      NumberAcceptedIff(parse, s);
      DigitsCut(Formatted(parse, s).user);
    }
  }

  /** One '+' only: a second one stays in the local part and is rejected. */
  lemma DoublePlusRejected(rest: string)
    ensures !Recipient("++" + rest)
  {
    var s := "++" + rest;
    CutTrimmed(s);
    var t := s[1..];
    var (u, _, _) := Cut(t, '@');
    assert t == TrimPlus(s) && t[0] == '+';
    assert u[0] == '+' && !JIDUser(u) by {
      assert Cut(u, '-').0[0] == '+';
    }
  }
}
