/** Resolving a JID to a user's identity over the LID store, and the chat ID made from a JID. */
module Identity {
  import opened Wrappers

  const DEFAULT_SERVER := "s.whatsapp.net"
  const HIDDEN_SERVER := "lid"

  datatype JID = JID(user: string, rawAgent: nat, device: nat, server: string)

  const EMPTY_JID := JID("", 0, 0, "")

  function Decimal(n: nat): string {
    if n < 10 then [('0' as int + n) as char] else Decimal(n / 10) + Decimal(n % 10)
  }

  /** JID.String of the client library, for a JID without a device. */
  function JIDString(j: JID): string
    requires j.device == 0
  {
    if j.rawAgent > 0 then j.user + "." + Decimal(j.rawAgent) + ":0@" + j.server
    else if j.user != "" then j.user + "@" + j.server
    else j.server
  }

  function CleanJID(j: JID): JID {
    JID(j.user, 0, 0, j.server)
  }

  /** The LID store: the user on the other side of the mapping; None when the lookup fails or finds nothing. */
  datatype LIDStore = LIDStore(pnForLID: string -> Option<string>, lidForPN: string -> Option<string>)

  datatype ID = ID(id: string, lid: string, phone: string, device: nat)

  /** A lookup counts only with a non-empty user. */
  function Found(r: Option<string>): string {
    if r.Some? then r.value else ""
  }

  function FormatLID(user: string): string {
    if user == "" then "" else user + "@" + HIDDEN_SERVER
  }

  /** categorize: the first JID of each kind wins. */
  function Categorized(j: JID, phone: string, lid: string): (string, string) {
    if j.user == "" then (phone, lid)
    else if j.server == DEFAULT_SERVER then (if phone == "" then j.user else phone, lid)
    else if j.server == HIDDEN_SERVER then (phone, if lid == "" then j.user else lid)
    else (phone, lid)
  }

  function Resolved(j: JID, alt: JID, lids: Option<LIDStore>): ID {
    var (phone1, lid1) := Categorized(j, "", "");
    var (phone2, lid2) := Categorized(alt, phone1, lid1);
    Completed(j, phone2, lid2, lids)
  }

  /** The ID from the users found, with the missing one looked up. */
  function Completed(j: JID, phone2: string, lid2: string, lids: Option<LIDStore>): ID {
    var phone := if lids.Some? && phone2 == "" && lid2 != "" then Found(lids.value.pnForLID(lid2)) else phone2;
    var lid := if lids.Some? && phone2 != "" && lid2 == "" then Found(lids.value.lidForPN(phone2)) else lid2;
    ID(if phone != "" then phone + "@" + DEFAULT_SERVER
       else if lid != "" then lid + "@" + HIDDEN_SERVER
       else JIDString(CleanJID(j)),
       FormatLID(lid), phone, j.device)
  }

  method Resolve(j: JID, alt: JID, lids: Option<LIDStore>) returns (r: ID)
    ensures r == Resolved(j, alt, lids)
  {
    var phone, lid, device := "", "", 0;
    if j.device != 0 {
      device := j.device;
    }
    phone, lid := Categorize(j, phone, lid);
    phone, lid := Categorize(alt, phone, lid);
    if lids.Some? {
      if phone == "" && lid != "" {
        var pn := lids.value.pnForLID(lid);
        if pn.Some? && pn.value != "" {
          phone := pn.value;
        }
      } else if lid == "" && phone != "" {
        var l := lids.value.lidForPN(phone);
        if l.Some? && l.value != "" {
          lid := l.value;
        }
      }
    }
    var id;
    if phone != "" {
      id := phone + "@" + DEFAULT_SERVER;
    } else if lid != "" {
      id := lid + "@" + HIDDEN_SERVER;
    } else {
      id := JIDString(CleanJID(j));
    }
    r := ID(id, FormatLID(lid), phone, device);
  }

  method Categorize(j: JID, phone: string, lid: string) returns (phone': string, lid': string)
    ensures (phone', lid') == Categorized(j, phone, lid)
  {
    phone', lid' := phone, lid;
    if j.user == "" {
      return;
    }
    if j.server == DEFAULT_SERVER {
      if phone' == "" {
        phone' := j.user;
      }
    } else if j.server == HIDDEN_SERVER {
      if lid' == "" {
        lid' := j.user;
      }
    }
  }

  function ProjectChatID(j: JID, lids: Option<LIDStore>): string {
    var clean := if j.device != 0 then CleanJID(j) else j;
    var pn := if clean.server == HIDDEN_SERVER && lids.Some? then Found(lids.value.pnForLID(clean.user)) else "";
    if pn != "" then pn + "@" + DEFAULT_SERVER else JIDString(clean)
  }

  // ---------- every pair of JIDs ----------

  predicate IsUser(j: JID) {
    j.user != "" && j.server in {DEFAULT_SERVER, HIDDEN_SERVER}
  }

  /** A LID JID and a phone JID, in either order: the identity has the phone ID, that phone and that LID, whatever
      the store is (none, one that fails, or one that says otherwise). */
  lemma PairResolves(j: JID, alt: JID, lids: Option<LIDStore>)
    requires j.user != "" && alt.user != ""
    ensures j.server == "lid" && alt.server == "s.whatsapp.net" ==>
              Resolved(j, alt, lids) == ID(alt.user + "@s.whatsapp.net", j.user + "@lid", alt.user, j.device)
    ensures j.server == "s.whatsapp.net" && alt.server == "lid" ==>
              Resolved(j, alt, lids) == ID(j.user + "@s.whatsapp.net", alt.user + "@lid", j.user, j.device)
  {
  }

  /** The store's answer for the other side of this user; empty without a store, or when it fails or has none. */
  predicate Answers(lids: Option<LIDStore>, u: JID, other: string) {
    if lids.None? then other == ""
    else
      var answer := if u.server == HIDDEN_SERVER then lids.value.pnForLID(u.user) else lids.value.lidForPN(u.user);
      answer == Some(other) || (answer == None && other == "")
  }

  /** Every other pair that names a user: the first of two JIDs of one kind wins, an alternate counts when j is no
      user, and the other side is the store's answer. The device is always that of j. */
  lemma OneSideResolves(j: JID, alt: JID, lids: Option<LIDStore>, u: JID, other: string)
    requires IsUser(u) && (u == j || (u == alt && !IsUser(j)))
    requires IsUser(alt) ==> alt.server == u.server
    requires Answers(lids, u, other)
    ensures u.server == "s.whatsapp.net" ==>
              Resolved(j, alt, lids)
              == ID(u.user + "@s.whatsapp.net", if other == "" then "" else other + "@lid", u.user, j.device)
    ensures u.server == "lid" ==>
              Resolved(j, alt, lids)
              == ID(if other == "" then u.user + "@lid" else other + "@s.whatsapp.net", u.user + "@lid", other,
                    j.device)
  {
    var (phone1, lid1) := Categorized(j, "", "");
    var named := Categorized(alt, phone1, lid1);
    assert named == if u.server == HIDDEN_SERVER then ("", u.user) else (u.user, "");
  }

  /** And with no user on either side the ID is j without its device and agent. */
  lemma NoUserResolves(j: JID, alt: JID, lids: Option<LIDStore>)
    requires !IsUser(j) && !IsUser(alt)
    ensures Resolved(j, alt, lids) == ID(if j.user == "" then j.server else j.user + "@" + j.server, "", "", j.device)
  {
  }

  // ---------- one user, one identity ----------

  /** The store is a partial bijection between phone users and LID users. */
  ghost predicate Bijective(s: LIDStore) {
    forall p, l | p != "" && l != "" :: s.pnForLID(l) == Some(p) <==> s.lidForPN(p) == Some(l)
  }

  /** j names the user with this phone and this LID, on either side, from any device. */
  predicate Names(j: JID, phone: string, lid: string) {
    (j.server == DEFAULT_SERVER && j.user == phone) || (j.server == HIDDEN_SERVER && j.user == lid)
  }

  /** The phone JID and the LID JID of a user resolve to the same identity, with or without the other as the
      alternate and from any device; only the device differs. */
  lemma SameUserSameIdentity(s: LIDStore, phone: string, lid: string, j: JID, alt: JID)
    requires Bijective(s) && phone != "" && lid != "" && s.pnForLID(lid) == Some(phone)
    requires Names(j, phone, lid) && (alt.user == "" || Names(alt, phone, lid))
    ensures Resolved(j, alt, Some(s)) == ID(phone + "@s.whatsapp.net", lid + "@lid", phone, j.device)
  {
    var (phone1, lid1) := Categorized(j, "", "");
    var (phone2, lid2) := Categorized(alt, phone1, lid1);
    CompletedFromEither(s, phone, lid, j, phone2, lid2);
  }

  lemma CompletedFromEither(s: LIDStore, phone: string, lid: string, j: JID, phone2: string, lid2: string)
    requires Bijective(s) && phone != "" && lid != "" && s.pnForLID(lid) == Some(phone)
    requires phone2 in {"", phone} && lid2 in {"", lid} && (phone2 != "" || lid2 != "")
    ensures Completed(j, phone2, lid2, Some(s)) == ID(phone + "@s.whatsapp.net", lid + "@lid", phone, j.device)
  {
    assert s.lidForPN(phone) == Some(lid);
  }

  /** The same account on the same side, or the two sides of one mapping. */
  predicate SameUser(s: LIDStore, a: JID, b: JID) {
    (a.server == b.server && a.user == b.user)
    || (a.server == HIDDEN_SERVER && b.server == DEFAULT_SERVER && s.pnForLID(a.user) == Some(b.user))
    || (a.server == DEFAULT_SERVER && b.server == HIDDEN_SERVER && s.pnForLID(b.user) == Some(a.user))
  }

  lemma SuffixInjective(a: string, x: string, b: string, y: string)
    requires a + "@" + x == b + "@" + y
    ensures |x| == |y| ==> a == b && x == y
    ensures x != "" && y != "" ==> x[|x| - 1] == y[|y| - 1]
  {
    var s := a + "@" + x;
    if |x| == |y| {
      assert s[..|a|] == a && s[..|b|] == b;
      assert s[|a| + 1..] == x && s[|b| + 1..] == y;
    }
    if x != "" && y != "" {
      assert s[|s| - 1] == x[|x| - 1] && (b + "@" + y)[|s| - 1] == y[|y| - 1];
    }
  }

  /** Over a bijective store two user JIDs get the same ID exactly when they are the same user. */
  lemma SameIDIff(s: LIDStore, a: JID, b: JID)
    requires Bijective(s) && IsUser(a) && IsUser(b)
    requires forall l :: s.pnForLID(l) != Some("")
    ensures Resolved(a, EMPTY_JID, Some(s)).id == Resolved(b, EMPTY_JID, Some(s)).id <==> SameUser(s, a, b)
  {
    var (x, userX) := IDParts(s, a);
    var (y, userY) := IDParts(s, b);
    if userX + "@" + x == userY + "@" + y {
      SuffixInjective(userX, x, userY, y);
    }
    if a.server == b.server == HIDDEN_SERVER && s.pnForLID(a.user).Some? {
      assert s.lidForPN(s.pnForLID(a.user).value) == Some(a.user);
    }
    if a.server == b.server == HIDDEN_SERVER && s.pnForLID(b.user).Some? {
      assert s.lidForPN(s.pnForLID(b.user).value) == Some(b.user);
    }
  }

  /** The server and the user of a user's ID. */
  function IDParts(s: LIDStore, j: JID): (r: (string, string))
    requires IsUser(j) && forall l :: s.pnForLID(l) != Some("")
    ensures Resolved(j, EMPTY_JID, Some(s)).id == r.1 + "@" + r.0
    ensures r == if j.server == HIDDEN_SERVER && s.pnForLID(j.user).None? then (HIDDEN_SERVER, j.user)
                 else (DEFAULT_SERVER, if j.server == HIDDEN_SERVER then s.pnForLID(j.user).value else j.user)
  {
    if j.server == HIDDEN_SERVER && s.pnForLID(j.user).None? then (HIDDEN_SERVER, j.user)
    else (DEFAULT_SERVER, if j.server == HIDDEN_SERVER then s.pnForLID(j.user).value else j.user)
  }

  // ---------- chat IDs ----------

  /** The raw agent survives in the chat ID: it is dropped only with a device, or by a mapping to a phone. */
  predicate AgentShows(j: JID, lids: Option<LIDStore>) {
    j.rawAgent > 0 && j.device == 0
    && !(j.server == HIDDEN_SERVER && lids.Some? && Found(lids.value.pnForLID(j.user)) != "")
  }

  /** The store has a phone for the LID JID without a user; such a JID is no user to the resolver. */
  predicate EmptyIsMapped(j: JID, lids: Option<LIDStore>) {
    j.user == "" && j.server == HIDDEN_SERVER && lids.Some? && Found(lids.value.pnForLID("")) != ""
  }

  /** For every JID, whatever the store answers, the chat ID is the identity's ID exactly when no raw agent shows
      and the store does not map a LID without a user. */
  lemma ChatIDIsIdentityIff(j: JID, lids: Option<LIDStore>)
    ensures ProjectChatID(j, lids) == Resolved(j, EMPTY_JID, lids).id
            <==> !AgentShows(j, lids) && !EmptyIsMapped(j, lids)
  {
    if AgentShows(j, lids) {
      AgentIsSeen(j, lids);
    } else if EmptyIsMapped(j, lids) {
      var p := Found(lids.value.pnForLID(""));
      assert |p + "@" + DEFAULT_SERVER| > |HIDDEN_SERVER|;
    }
  }

  lemma AgentIsSeen(j: JID, lids: Option<LIDStore>)
    requires AgentShows(j, lids)
    ensures ProjectChatID(j, lids) == j.user + "." + Decimal(j.rawAgent) + ":0@" + j.server
    ensures ProjectChatID(j, lids) != Resolved(j, EMPTY_JID, lids).id
  {
    assert |JIDString(j)| > |j.user + "@" + j.server|;
    if j.user != "" {
      assert Resolved(j, EMPTY_JID, lids).id == j.user + "@" + j.server;
    }
  }
}
