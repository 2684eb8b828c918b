/** Event types and the user's event filter list: stripping, storing and reading it back. */
module EventTypes {
  const LOGGED_OUT := "logged_out"
  const LOGGED_IN := "logged_in"
  const LOGIN_ERROR := "login_error"
  const INITIAL_SYNC_FINISHED := "initial_sync_finished"
  const MESSAGE_HISTORY_SYNC := "message_history_sync"

  predicate IsSystemEvent(eventType: string) {
    eventType in {LOGGED_IN, LOGGED_OUT, LOGIN_ERROR, INITIAL_SYNC_FINISHED}
  }

  /** Every type of event the gateway publishes. */
  predicate IsEventType(eventType: string) {
    IsSystemEvent(eventType)
    || eventType in {"chat_setting", "chat_presence", "chat_push_name", "chat_status", "chat_picture",
                     "message", "message_read", "message_delete", "message_star", MESSAGE_HISTORY_SYNC,
                     "contact", "group", "newsletter", "call_offer", "call_terminate", "call_accept", "user_presence"}
  }
}

module Filters {
  import opened EventTypes

  /** The code points unicode.IsSpace accepts. */
  predicate IsSpace(c: char) {
    var n := c as int;
    9 <= n <= 13 || n == 0x20 || n == 0x85 || n == 0xA0 || n == 0x1680 || 0x2000 <= n <= 0x200A
    || n == 0x2028 || n == 0x2029 || n == 0x202F || n == 0x205F || n == 0x3000
  }

  ghost predicate AllSpace(s: string) {
    forall i | 0 <= i < |s| :: IsSpace(s[i])
  }

  function TrimLeft(s: string): string {
    if s != [] && IsSpace(s[0]) then TrimLeft(s[1..]) else s
  }

  function TrimRight(s: string): string {
    if s != [] && IsSpace(s[|s| - 1]) then TrimRight(s[..|s| - 1]) else s
  }

  function TrimSpace(s: string): string {
    TrimRight(TrimLeft(s))
  }

  predicate Trimmed(s: string) {
    s == [] || (!IsSpace(s[0]) && !IsSpace(s[|s| - 1]))
  }

  lemma {:induction false} TrimLeftMeaning(s: string) returns (cut: string)
    ensures s == cut + TrimLeft(s) && AllSpace(cut)
    ensures TrimLeft(s) != [] ==> !IsSpace(TrimLeft(s)[0])
  {
    if s != [] && IsSpace(s[0]) {
      cut := TrimLeftMeaning(s[1..]);
      cut := [s[0]] + cut;
    } else {
      cut := [];
    }
  }

  lemma {:induction false} TrimRightMeaning(s: string) returns (cut: string)
    ensures s == TrimRight(s) + cut && AllSpace(cut)
    ensures TrimRight(s) != [] ==> !IsSpace(TrimRight(s)[|TrimRight(s)| - 1])
  {
    if s != [] && IsSpace(s[|s| - 1]) {
      cut := TrimRightMeaning(s[..|s| - 1]);
      cut := cut + [s[|s| - 1]];
    } else {
      cut := [];
    }
  }

  /** What trimming means: the middle of the string, cut from white space on both sides. */
  lemma TrimSpaceMeaning(s: string) returns (before: string, after: string)
    ensures s == before + TrimSpace(s) + after
    ensures AllSpace(before) && AllSpace(after) && Trimmed(TrimSpace(s))
  {
    before := TrimLeftMeaning(s);
    after := TrimRightMeaning(TrimLeft(s));
    if TrimSpace(s) != [] {
      assert TrimSpace(s)[0] == TrimLeft(s)[0];
    }
  }

  lemma TrimSpaceFixed(s: string)
    requires Trimmed(s)
    ensures TrimSpace(s) == s
  {
    assert TrimLeft(s) == s;
  }

  function Join(parts: seq<string>): string {
    if parts == [] then ""
    else if |parts| == 1 then parts[0]
    else parts[0] + "," + Join(parts[1..])
  }

  predicate CommaFree(s: string) {
    ',' !in s
  }

  /** strings.Split on a comma. */
  function SplitOnComma(s: string): (parts: seq<string>)
    ensures parts != []
    ensures forall p | p in parts :: CommaFree(p)
    ensures Join(parts) == s
  {
    if s == [] then [""]
    else
      var rest := SplitOnComma(s[1..]);
      if s[0] == ',' then
        assert ([""] + rest)[1..] == rest;
        [""] + rest
      else
        assert ([[s[0]] + rest[0]] + rest[1..])[1..] == rest[1..];
        assert CommaFree(rest[0]);
        [[s[0]] + rest[0]] + rest[1..]
  }

  lemma {:induction false} SplitCommaFree(p: string)
    requires CommaFree(p)
    ensures SplitOnComma(p) == [p]
  {
    if p != [] {
      SplitCommaFree(p[1..]);
      assert [p[0]] + p[1..] == p;
    }
  }

  /** The parts of a string with this character in front. */
  function Prepended(c: char, parts: seq<string>): (r: seq<string>)
    requires parts != []
    ensures r != []
  {
    if c == ',' then [""] + parts else [[c] + parts[0]] + parts[1..]
  }

  lemma SplitNext(c: char, s: string)
    ensures SplitOnComma([c] + s) == Prepended(c, SplitOnComma(s))
  {
    assert ([c] + s)[1..] == s;
  }

  lemma {:induction false} SplitFirst(p: string, tail: string)
    requires CommaFree(p)
    ensures SplitOnComma(p + "," + tail) == [p] + SplitOnComma(tail)
  {
    if p == "" {
      assert p + "," + tail == [','] + tail;
      SplitNext(',', tail);
    } else {
      var c, rest := p[0], p[1..];
      SplitFirst(rest, tail);
      SplitNext(c, rest + "," + tail);
      assert p == [c] + rest;
      assert p + "," + tail == [c] + (rest + "," + tail);
    }
  }

  lemma {:induction false} SplitOfJoin(parts: seq<string>)
    requires parts != [] && forall p | p in parts :: CommaFree(p)
    ensures SplitOnComma(Join(parts)) == parts
  {
    if |parts| == 1 {
      SplitCommaFree(parts[0]);
    } else {
      SplitOfJoin(parts[1..]);
      SplitFirst(parts[0], Join(parts[1..]));
      assert [parts[0]] + parts[1..] == parts;
    }
  }

  /** The loop body of splitFilters over all parts: trim each, drop the empty ones. */
  function Tidy(parts: seq<string>): seq<string> {
    if parts == [] then []
    else
      var p := TrimSpace(parts[|parts| - 1]);
      Tidy(parts[..|parts| - 1]) + if p != "" then [p] else []
  }

  function Split(s: string): seq<string> {
    var t := TrimSpace(s);
    if t == "" then [] else Tidy(SplitOnComma(t))
  }

  method SplitFilters(s: string) returns (out: seq<string>)
    ensures out == Split(s)
    ensures AllClean(out)
  {
    var t := TrimSpace(s);
    if t == "" {
      return [];
    }
    var parts := SplitOnComma(t);
    out := [];
    for i := 0 to |parts|
      invariant out == Tidy(parts[..i])
    {
      assert parts[..i + 1][..i] == parts[..i];
      var p := TrimSpace(parts[i]);
      if p != "" {
        out := out + [p];
      }
    }
    assert parts[..|parts|] == parts;
    TidyIsClean(parts);
  }

  /** A filter that survives storage as it is. */
  predicate Clean(f: string) {
    f != "" && CommaFree(f) && Trimmed(f)
  }

  predicate AllClean(filters: seq<string>) {
    forall f | f in filters :: Clean(f)
  }

  lemma {:induction false} TidyIsClean(parts: seq<string>)
    requires forall p | p in parts :: CommaFree(p)
    ensures AllClean(Tidy(parts))
  {
    if parts != [] {
      TidyIsClean(parts[..|parts| - 1]);
      var p := parts[|parts| - 1];
      var before, after := TrimSpaceMeaning(p);
      assert CommaFree(p);
      assert forall c | c in TrimSpace(p) :: c in p;
    }
  }

  lemma {:induction false} TidyOfClean(filters: seq<string>)
    requires AllClean(filters)
    ensures Tidy(filters) == filters
  {
    if filters != [] {
      var n := |filters| - 1;
      TidyOfClean(filters[..n]);
      assert filters[n] in filters;
      TrimSpaceFixed(filters[n]);
      assert filters[..n] + [filters[n]] == filters;
    }
  }

  lemma SplitIsClean(s: string)
    ensures AllClean(Split(s))
  {
    TidyIsClean(SplitOnComma(TrimSpace(s)));
  }

  lemma {:induction false} JoinOfCleanTrimmed(filters: seq<string>)
    requires filters != [] && AllClean(filters)
    ensures Join(filters) != "" && Trimmed(Join(filters))
  {
    assert filters[0] in filters;
    if |filters| > 1 {
      JoinOfCleanTrimmed(filters[1..]);
      var j := Join(filters[1..]);
      assert Join(filters)[0] == filters[0][0];
      assert Join(filters)[|Join(filters)| - 1] == j[|j| - 1];
    }
  }

  /** A filter list comes back from the store unchanged exactly when every filter is clean. */
  lemma StoredFiltersUnchangedIff(filters: seq<string>)
    ensures Split(Join(filters)) == filters <==> AllClean(filters)
  {
    SplitIsClean(Join(filters));
    if AllClean(filters) && filters != [] {
      JoinOfCleanTrimmed(filters);
      TrimSpaceFixed(Join(filters));
      SplitOfJoin(filters);
      TidyOfClean(filters);
    }
  }

  /** Storing and reading back is a normalisation: doing it twice is doing it once, on every list. */
  lemma StoringIsIdempotent(filters: seq<string>)
    ensures Split(Join(Split(Join(filters)))) == Split(Join(filters))
  {
    SplitIsClean(Join(filters));
    StoredFiltersUnchangedIff(Split(Join(filters)));
  }

  // ---------- what comes back from the store ----------

  lemma {:induction false} TidyConcat(a: seq<string>, b: seq<string>)
    ensures Tidy(a + b) == Tidy(a) + Tidy(b)
  {
    if b == [] {
      assert a + b == a;
    } else {
      var n := |b| - 1;
      TidyConcat(a, b[..n]);
      assert (a + b)[..|a + b| - 1] == a + b[..n];
    }
  }

  lemma TidyOne(p: string)
    ensures Tidy([p]) == if TrimSpace(p) == "" then [] else [TrimSpace(p)]
  {
    assert [p][..0] == [];
    assert Tidy([]) == [];
  }

  /** A split string in two: the first part, and what follows it. */
  lemma TidyFirst(parts: seq<string>)
    requires parts != []
    ensures Tidy(parts) == (if TrimSpace(parts[0]) == "" then [] else [TrimSpace(parts[0])]) + Tidy(parts[1..])
  {
    assert parts == [parts[0]] + parts[1..];
    TidyConcat([parts[0]], parts[1..]);
    TidyOne(parts[0]);
  }

  lemma PrependedConcat(c: char, a: seq<string>, b: seq<string>)
    requires a != []
    ensures Prepended(c, a + b) == Prepended(c, a) + b
  {
    assert (a + b)[1..] == a[1..] + b;
  }

  lemma {:induction false} SplitConcat(s: string, t: string)
    ensures SplitOnComma(s + "," + t) == SplitOnComma(s) + SplitOnComma(t)
  {
    if s == "" {
      SplitFirst("", t);
    } else {
      var c, tail := s[0], s[1..];
      SplitConcat(tail, t);
      SplitNext(c, tail);
      SplitNext(c, tail + "," + t);
      PrependedConcat(c, SplitOnComma(tail), SplitOnComma(t));
      assert s == [c] + tail;
      assert s + "," + t == [c] + (tail + "," + t);
    }
  }

  /** Leading white space of the whole string falls to the first part, where it is trimmed anyway. */
  lemma {:induction false} TidyTrimLeft(s: string)
    ensures Tidy(SplitOnComma(TrimLeft(s))) == Tidy(SplitOnComma(s))
  {
    if s != "" && IsSpace(s[0]) {
      TidyTrimLeft(s[1..]);
      var rest := SplitOnComma(s[1..]);
      assert ([s[0]] + rest[0])[1..] == rest[0];
      TidyFirst(rest);
      TidyFirst(SplitOnComma(s));
    }
  }

  /** The parts of a string with this character, which is no comma, at its end. */
  function Appended(parts: seq<string>, c: char): (r: seq<string>)
    requires parts != []
    ensures r != []
  {
    parts[..|parts| - 1] + [parts[|parts| - 1] + [c]]
  }

  lemma PrependedAppended(d: char, parts: seq<string>, c: char)
    requires parts != []
    ensures Prepended(d, Appended(parts, c)) == Appended(Prepended(d, parts), c)
  {
    if |parts| == 1 && d != ',' {
      assert [d] + (parts[0] + [c]) == [d] + parts[0] + [c];
    }
  }

  lemma {:induction false} SplitAppend(s: string, c: char)
    requires c != ','
    ensures SplitOnComma(s + [c]) == Appended(SplitOnComma(s), c)
  {
    if s == "" {
      SplitCommaFree([c]);
      assert "" + [c] == [c];
    } else {
      var d, tail := s[0], s[1..];
      SplitAppend(tail, c);
      SplitNext(d, tail);
      SplitNext(d, tail + [c]);
      PrependedAppended(d, SplitOnComma(tail), c);
      assert s == [d] + tail;
      assert s + [c] == [d] + (tail + [c]);
    }
  }

  lemma {:induction false} TrimLeftAppend(s: string, c: char)
    requires IsSpace(c)
    ensures TrimLeft(s + [c]) == if TrimLeft(s) == "" then "" else TrimLeft(s) + [c]
  {
    if s == "" {
      assert ([c])[1..] == "";
    } else {
      assert (s + [c])[1..] == s[1..] + [c];
      if IsSpace(s[0]) {
        TrimLeftAppend(s[1..], c);
      }
    }
  }

  lemma TrimSpaceAppend(s: string, c: char)
    requires IsSpace(c)
    ensures TrimSpace(s + [c]) == TrimSpace(s)
  {
    TrimLeftAppend(s, c);
    assert (TrimLeft(s) + [c])[..|TrimLeft(s)|] == TrimLeft(s);
  }

  lemma TidyAppended(parts: seq<string>, c: char)
    requires parts != [] && IsSpace(c)
    ensures Tidy(Appended(parts, c)) == Tidy(parts)
  {
    var n := |parts| - 1;
    TrimSpaceAppend(parts[n], c);
    TidyConcat(parts[..n], [parts[n]]);
    TidyConcat(parts[..n], [parts[n] + [c]]);
    TidyOne(parts[n]);
    TidyOne(parts[n] + [c]);
    assert parts == parts[..n] + [parts[n]];
  }

  lemma TidySpaceAfter(s: string, c: char)
    requires IsSpace(c)
    ensures Tidy(SplitOnComma(s + [c])) == Tidy(SplitOnComma(s))
  {
    SplitAppend(s, c);
    TidyAppended(SplitOnComma(s), c);
  }

  lemma TrimRightNext(s: string, c: char)
    ensures TrimRight(s + [c]) == if IsSpace(c) then TrimRight(s) else s + [c]
  {
    assert (s + [c])[..|s|] == s;
  }

  lemma {:induction false} TidyTrimRight(s: string)
    ensures Tidy(SplitOnComma(TrimRight(s))) == Tidy(SplitOnComma(s))
    decreases |s|
  {
    if s != "" {
      var before, c := s[..|s| - 1], s[|s| - 1];
      assert s == before + [c];
      TrimRightNext(before, c);
      if IsSpace(c) {
        TidyTrimRight(before);
        TidySpaceAfter(before, c);
      }
    }
  }

  /** Trimming the whole string first changes nothing. */
  lemma SplitUntrimmed(s: string)
    ensures Split(s) == Tidy(SplitOnComma(s))
  {
    TidyTrimLeft(s);
    TidyTrimRight(TrimLeft(s));
    TidyOne("");
  }

  /** Each filter split on its own. */
  function SplitEach(filters: seq<string>): seq<string> {
    if filters == [] then [] else Split(filters[0]) + SplitEach(filters[1..])
  }

  /** A stored list comes back as its filters split on their own: commas inside a filter divide it, white space
      around the pieces is lost, and so are empty pieces. */
  lemma {:induction false} StoredAsSplit(filters: seq<string>)
    ensures Split(Join(filters)) == SplitEach(filters)
  {
    if filters == [] {
    } else if |filters| == 1 {
      assert SplitEach(filters[1..]) == [];
    } else {
      var tail := Join(filters[1..]);
      StoredAsSplit(filters[1..]);
      SplitUntrimmed(Join(filters));
      SplitUntrimmed(filters[0]);
      SplitUntrimmed(tail);
      SplitConcat(filters[0], tail);
      TidyConcat(SplitOnComma(filters[0]), SplitOnComma(tail));
    }
  }

  /** What a filter of this list becomes in the store. */
  ghost predicate ComesBack(filters: seq<string>, t: string) {
    exists f | f in filters :: t in Split(f)
  }

  lemma {:induction false} SplitEachMembers(filters: seq<string>, t: string)
    ensures t in SplitEach(filters) <==> ComesBack(filters, t)
  {
    if filters != [] {
      SplitEachMembers(filters[1..], t);
      assert filters == [filters[0]] + filters[1..];
    }
  }

  lemma CleanComesBack(filters: seq<string>, f: string)
    requires f in filters && Clean(f)
    ensures ComesBack(filters, f)
  {
    assert [f][..0] == [] && Join([f]) == f;
    StoredFiltersUnchangedIff([f]);
  }

  /** Nothing but commas and white space. */
  predicate Blank(f: string) {
    forall c | c in f :: c == ',' || IsSpace(c)
  }

  predicate AllBlank(filters: seq<string>) {
    forall f | f in filters :: Blank(f)
  }

  lemma TrimsToNothingIff(s: string)
    ensures TrimSpace(s) == "" <==> AllSpace(s)
  {
    var before, after := TrimSpaceMeaning(s);
    if TrimSpace(s) != "" {
      assert s[|before|] == TrimSpace(s)[0];
    }
  }

  lemma {:induction false} SplitOfBlank(s: string)
    ensures Tidy(SplitOnComma(s)) == [] <==> Blank(s)
  {
    if s == "" {
      TidyOne("");
    } else {
      var rest := SplitOnComma(s[1..]);
      SplitOfBlank(s[1..]);
      TidyFirst(SplitOnComma(s));
      TidyFirst(rest);
      TrimsToNothingIff(rest[0]);
      TrimsToNothingIff([s[0]] + rest[0]);
      assert s == [s[0]] + s[1..];
      assert s[0] != ',' ==> (AllSpace([s[0]] + rest[0]) <==> IsSpace(s[0]) && AllSpace(rest[0])) by {
        assert ([s[0]] + rest[0])[1..] == rest[0];
        assert ([s[0]] + rest[0])[0] == s[0];
      }
    }
  }

  /** Nothing comes back exactly when every filter is blank. */
  lemma {:induction false} NothingComesBackIff(filters: seq<string>)
    ensures SplitEach(filters) == [] <==> AllBlank(filters)
  {
    if filters != [] {
      NothingComesBackIff(filters[1..]);
      SplitUntrimmed(filters[0]);
      SplitOfBlank(filters[0]);
      assert filters == [filters[0]] + filters[1..];
    }
  }

  function Stripped(filters: seq<string>): seq<string> {
    if filters == [] then []
    else
      var f := filters[|filters| - 1];
      Stripped(filters[..|filters| - 1]) + if IsSystemEvent(f) then [] else [f]
  }

  method StripSystemEvents(filters: seq<string>) returns (out: seq<string>)
    ensures out == Stripped(filters)
    ensures forall f :: f in out <==> f in filters && !IsSystemEvent(f)
  {
    out := [];
    for i := 0 to |filters|
      invariant out == Stripped(filters[..i])
    {
      assert filters[..i + 1][..i] == filters[..i];
      if !IsSystemEvent(filters[i]) {
        out := out + [filters[i]];
      }
    }
    assert filters[..|filters|] == filters;
    StrippedMembers(filters);
  }

  lemma {:induction false} StrippedMembers(filters: seq<string>)
    ensures forall f :: f in Stripped(filters) <==> f in filters && !IsSystemEvent(f)
  {
    if filters != [] {
      var n := |filters| - 1;
      StrippedMembers(filters[..n]);
      assert filters == filters[..n] + [filters[n]];
    }
  }

  /** Stripping keeps the order of what it keeps, and every repetition. */
  lemma {:induction false} StrippedConcat(a: seq<string>, b: seq<string>)
    ensures Stripped(a + b) == Stripped(a) + Stripped(b)
  {
    if b == [] {
      assert a + b == a;
    } else {
      var n := |b| - 1;
      StrippedConcat(a, b[..n]);
      assert (a + b)[..|a + b| - 1] == a + b[..n];
      assert (a + b)[|a + b| - 1] == b[n];
    }
  }

  /** The handler's filter test: an empty list lets everything through, system events always pass. */
  predicate Delivers(filters: seq<string>, eventType: string) {
    |filters| == 0 || IsSystemEvent(eventType) || eventType in filters
  }

  /** The list names every event type of the gateway that can be filtered. */
  ghost predicate CoversDataEvents(filters: seq<string>) {
    forall t | IsEventType(t) && !IsSystemEvent(t) :: t in filters
  }
}
