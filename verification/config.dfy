/** Instance configuration: global defaults, the stored row, and what a restart makes of it. */
module Config {
  import opened Wrappers
  import opened EventTypes
  import opened Filters

  datatype InstanceConfig = InstanceConfig(
    apiKey: string,
    webhookURL: string,
    signingSecret: string,
    eventFilters: seq<string>,
    historySync: Option<bool>,
    publishEvents: Option<bool>)

  /** The configuration columns of wsapi_instances. */
  datatype Columns = Columns(
    apiKey: string,
    webhookURL: string,
    signingSecret: string,
    eventFilters: string,
    historySync: Option<bool>,
    publishEvents: Option<bool>)

  function Defaulted(d: InstanceConfig, c: InstanceConfig): InstanceConfig {
    InstanceConfig(
      if c.apiKey == "" then d.apiKey else c.apiKey,
      if c.webhookURL == "" then d.webhookURL else c.webhookURL,
      if c.signingSecret == "" then d.signingSecret else c.signingSecret,
      if c.eventFilters == [] then d.eventFilters else c.eventFilters,
      if c.historySync.None? then d.historySync else c.historySync,
      if c.publishEvents.None? then d.publishEvents else c.publishEvents)
  }

  /** Each field is the one given, or the default where that is empty. */
  predicate FilledIn(cfg: InstanceConfig, c: InstanceConfig, d: InstanceConfig) {
    && cfg.apiKey == (if c.apiKey != "" then c.apiKey else d.apiKey)
    && cfg.webhookURL == (if c.webhookURL != "" then c.webhookURL else d.webhookURL)
    && cfg.signingSecret == (if c.signingSecret != "" then c.signingSecret else d.signingSecret)
    && cfg.eventFilters == (if c.eventFilters != [] then c.eventFilters else d.eventFilters)
    && cfg.historySync == (if c.historySync != None then c.historySync else d.historySync)
    && cfg.publishEvents == (if c.publishEvents != None then c.publishEvents else d.publishEvents)
  }

  method ApplyDefaults(d: InstanceConfig, c: InstanceConfig) returns (cfg: InstanceConfig)
    ensures cfg == Defaulted(d, c)
    ensures FilledIn(cfg, c, d)
  {
    cfg := c;
    if cfg.apiKey == "" {
      cfg := cfg.(apiKey := d.apiKey);
    }
    if cfg.webhookURL == "" {
      cfg := cfg.(webhookURL := d.webhookURL);
    }
    if cfg.signingSecret == "" {
      cfg := cfg.(signingSecret := d.signingSecret);
    }
    if |cfg.eventFilters| == 0 {
      cfg := cfg.(eventFilters := d.eventFilters);
    }
    if cfg.historySync.None? {
      cfg := cfg.(historySync := d.historySync);
    }
    if cfg.publishEvents.None? {
      cfg := cfg.(publishEvents := d.publishEvents);
    }
  }

  /** The configuration create and update give an instance. */
  function Prepared(d: InstanceConfig, c: InstanceConfig): InstanceConfig {
    var cfg := Defaulted(d, c);
    cfg.(eventFilters := Stripped(cfg.eventFilters))
  }

  /** What SaveInstance writes. */
  function ToColumns(c: InstanceConfig): Columns {
    Columns(c.apiKey, c.webhookURL, c.signingSecret, Join(c.eventFilters), c.historySync, c.publishEvents)
  }

  /** What ListInstances reads, before defaults. */
  function FromColumns(r: Columns): InstanceConfig {
    InstanceConfig(r.apiKey, r.webhookURL, r.signingSecret, Split(r.eventFilters), r.historySync, r.publishEvents)
  }

  /** The configuration RestoreInstances gives the instance of a row. */
  function Restored(d: InstanceConfig, r: Columns): InstanceConfig {
    Defaulted(d, FromColumns(r))
  }

  /** A filter list that a restart under the defaults d gives back as it was. */
  predicate SurvivesRestart(d: InstanceConfig, filters: seq<string>) {
    (AllClean(filters) && (filters != [] || d.eventFilters == []))
    || (AllBlank(filters) && d.eventFilters == filters)
  }

  /** The filter list of a restored row. */
  lemma RestoredFilters(d: InstanceConfig, c: InstanceConfig)
    ensures Restored(d, ToColumns(c)).eventFilters ==
            if AllBlank(c.eventFilters) then d.eventFilters else SplitEach(c.eventFilters)
  {
    StoredAsSplit(c.eventFilters);
    NothingComesBackIff(c.eventFilters);
  }

  /** A prepared configuration comes back from a restart unchanged exactly when its filter list does. */
  lemma RestartKeepsConfigIff(d: InstanceConfig, c: InstanceConfig)
    ensures Restored(d, ToColumns(Prepared(d, c))) == Prepared(d, c)
            <==> SurvivesRestart(d, Prepared(d, c).eventFilters)
  {
    var p := Prepared(d, c);
    RestoredFilters(d, p);
    StoredAsSplit(p.eventFilters);
    StoredFiltersUnchangedIff(p.eventFilters);
    BlankIsNotClean(p.eventFilters);
  }

  lemma CleanIsNotBlank(f: string)
    requires Clean(f)
    ensures !Blank(f)
  {
    assert f[0] in f;
  }

  lemma BlankIsNotClean(filters: seq<string>)
    ensures AllBlank(filters) && AllClean(filters) ==> filters == []
  {
    if filters != [] {
      assert filters[0] in filters;
      if Clean(filters[0]) {
        CleanIsNotBlank(filters[0]);
      }
    }
  }

  /** No event of the gateway is delivered under one and not under the other. */
  ghost predicate SameDelivery(a: InstanceConfig, b: InstanceConfig) {
    forall t | IsEventType(t) :: Delivers(a.eventFilters, t) == Delivers(b.eventFilters, t)
  }

  predicate IsDataEvent(t: string) {
    IsEventType(t) && !IsSystemEvent(t)
  }

  /** What must hold of the default list and of an instance's list for a restart to deliver the same events.
      An empty list delivers everything, and a blank one nothing but system events; either is replaced by the
      default list. Any other comes back as its filters split on their own, so none may hide a type the list
      does not name. */
  ghost predicate KeepsDelivery(defaults: seq<string>, filters: seq<string>) {
    if filters == [] then defaults == [] || CoversDataEvents(defaults)
    else if AllBlank(filters) then defaults != [] && forall t | IsDataEvent(t) :: t !in defaults
    else forall t | IsDataEvent(t) && ComesBack(filters, t) :: t in filters
  }

  /** For every configuration and all defaults. */
  lemma RestartKeepsDeliveryIff(d: InstanceConfig, c: InstanceConfig)
    ensures SameDelivery(Restored(d, ToColumns(Prepared(d, c))), Prepared(d, c))
            <==> KeepsDelivery(d.eventFilters, Prepared(d, c).eventFilters)
  {
    var p := Prepared(d, c);
    RestoredFilters(d, p);
    DeliveredIff(Restored(d, ToColumns(p)), p);
    if p.eventFilters != [] && AllBlank(p.eventFilters) {
      BlankDeliversNothing(p.eventFilters);
      assert IsDataEvent("message");
    } else if p.eventFilters != [] {
      SplitDelivers(p.eventFilters);
      NothingComesBackIff(p.eventFilters);
    }
  }

  /** System events are delivered under any list, so only the others tell two apart. */
  lemma DeliveredIff(a: InstanceConfig, b: InstanceConfig)
    ensures SameDelivery(a, b) <==>
            forall t | IsDataEvent(t) ::
              (a.eventFilters == [] || t in a.eventFilters) == (b.eventFilters == [] || t in b.eventFilters)
  {
  }

  lemma BlankDeliversNothing(filters: seq<string>)
    requires AllBlank(filters)
    ensures forall t | IsDataEvent(t) :: t !in filters
  {
    forall t | IsDataEvent(t) ensures !Blank(t) {
      DataEventIsClean(t);
    }
  }

  /** Names of event types are made of letters and underscores. */
  lemma DataEventIsClean(t: string)
    requires IsDataEvent(t)
    ensures Clean(t) && !Blank(t)
  {
    assert Clean(t);
    CleanIsNotBlank(t);
  }

  lemma SplitDelivers(filters: seq<string>)
    ensures forall t | IsDataEvent(t) :: t in SplitEach(filters) <==> ComesBack(filters, t)
    ensures forall t | IsDataEvent(t) && t in filters :: ComesBack(filters, t)
  {
    forall t | IsDataEvent(t) ensures t in SplitEach(filters) <==> ComesBack(filters, t) {
      SplitEachMembers(filters, t);
    }
    forall t | IsDataEvent(t) && t in filters ensures ComesBack(filters, t) {
      DataEventIsClean(t);
      CleanComesBack(filters, t);
    }
  }

  /** A default list of system events only: after a restart messages stop being delivered. */
  lemma RestartCanNarrowDelivery()
    ensures var d := InstanceConfig("", "", "", ["logged_in"], None, None);
            var p := Prepared(d, InstanceConfig("", "", "", [], None, None));
            var r := Restored(d, ToColumns(p));
            IsEventType("message") && Delivers(p.eventFilters, "message") && !Delivers(r.eventFilters, "message")
  {
    var d := InstanceConfig("", "", "", ["logged_in"], None, None);
    var fs: seq<string> := ["logged_in"];
    assert fs[..0] == [];
    assert Stripped(fs) == [];
    var p := Prepared(d, InstanceConfig("", "", "", [], None, None));
    assert p.eventFilters == [];
    RestoredFilters(d, p);
  }

  /** Under this default list an instance without a list of its own does not get this event, until a restart. */
  ghost predicate DeliveredOnlyAfterRestart(filters: seq<string>, t: string) {
    var d := InstanceConfig("", "", "", filters, None, None);
    var p := Prepared(d, InstanceConfig("", "", "", [], None, None));
    !Delivers(p.eventFilters, t) && Delivers(Restored(d, ToColumns(p)).eventFilters, t)
  }

  /** The default list of a setting with a blank after its comma, which is split without trimming. */
  lemma RestartCanWidenDelivery(setting: string, t: string)
    requires setting == "message, contact" && t == "contact"
    ensures IsEventType(t) && DeliveredOnlyAfterRestart(SplitOnComma(setting), t)
  {
    assert IsDataEvent(t);
    DataEventIsClean(t);
    PaddedSettingWidens(setting, "message", t);
  }

  lemma PaddedSettingWidens(setting: string, first: string, t: string)
    requires setting == first + "," + ([' '] + t) && CommaFree(first) && Clean(t) && first != t
    requires !IsSystemEvent(first) && !IsSystemEvent([' '] + t) && !IsSystemEvent(t)
    ensures DeliveredOnlyAfterRestart(SplitOnComma(setting), t)
  {
    SplitFirst(first, [' '] + t);
    SplitCommaFree([' '] + t);
    assert [first] + [[' '] + t] == [first, [' '] + t];
    PaddedDefaultWidens(SplitOnComma(setting), first, t);
  }

  lemma PaddedDefaultWidens(filters: seq<string>, first: string, t: string)
    requires filters == [first, [' '] + t] && Clean(t) && first != t
    requires !IsSystemEvent(first) && !IsSystemEvent([' '] + t) && !IsSystemEvent(t)
    ensures DeliveredOnlyAfterRestart(filters, t)
  {
    var d := InstanceConfig("", "", "", filters, None, None);
    assert filters[..1] == [first] && [first][..0] == [];
    assert Stripped([first]) == [first];
    assert Stripped(filters) == filters;
    var p := Prepared(d, InstanceConfig("", "", "", [], None, None));
    assert [' '] + t in filters && |[' '] + t| != |t|;
    PaddedComesBack(filters, t);
    SplitEachMembers(filters, t);
    NothingComesBackIff(filters);
    RestoredFilters(d, p);
  }

  lemma PaddedComesBack(filters: seq<string>, f: string)
    requires [' '] + f in filters && Clean(f)
    ensures ComesBack(filters, f)
  {
    assert ([' '] + f)[1..] == f;
    assert TrimLeft([' '] + f) == f;
    assert [f][..0] == [] && Join([f]) == f;
    StoredFiltersUnchangedIff([f]);
    assert Split([' '] + f) == Split(f);
  }
}
