/**
 * The config table parsed into a typed snapshot, and the rules over several keys.
 *
 * A key is one of the registry's names, or any other string. `Parsed` says what the snapshot of a table
 * is without an order; `BuildParsed` walks the table in an arbitrary one.
 */
module ConfigSnapshot {
  import opened Prelude
  import Decay

  datatype Key =
    | CtfName | CtfDescription | CtfTheme | ThemeTokens | CtfPortalView | UserMode | Setup
    | ChallengeVisibility | ScoreVisibility | AccountVisibility | RegistrationVisibility
    | VerifyEmails | ViewAfterCtf | Paused | TeamCreation
    | Start | End | Freeze
    | NumUsers | NumTeams | TeamSize
    | MailServer | MailUsername | MailPassword | MailPort | MailTls | MailFromAddr
    | WebhookUrl | WebhookEnabled | WebhookEvents
    | Other(name: string)

  type Rows = map<Key, string>

  datatype Mode = Users | Teams

  datatype Vis = Public | Private | Admins | Hidden | Mlc

  datatype PortalView = Standard | Globe

  datatype Feed = Feed(firstBlood: bool, solve: bool)

  // The one substitution a load can make: registration_visibility "mlc" is served as public.
  datatype Repair = MlcRepair

  datatype Branding = Branding(ctfName: string, ctfDescription: string, theme: string, themeTokens: string, portalView: PortalView)

  datatype Access = Access(challengeVis: Vis, scoreVis: Vis, accountVis: Vis, registrationVis: Vis)

  datatype Switches = Switches(setupDone: bool, verifyEmails: bool, viewAfterCtf: bool, paused: bool, teamCreation: bool)

  datatype Schedule = Schedule(start: Option<int>, end: Option<int>, freeze: Option<int>)

  datatype Caps = Caps(numUsers: int, numTeams: int, teamSize: int)

  datatype Mail = Mail(server: string, port: int, username: string, password: string, tls: bool, sender: string)

  datatype Webhook = Webhook(url: string, enabled: bool, events: Feed)

  // The typed struct, its fields grouped.
  datatype Settings = Settings(branding: Branding, access: Access, switches: Switches, schedule: Schedule, caps: Caps,
                               mail: Mail, webhook: Webhook)

  // `raw` is every row as stored.
  datatype Snapshot = Snapshot(settings: Settings, mode: Mode, raw: Rows, repairs: seq<Repair>)

  // What a key's setter makes of a value, before it is assigned.
  datatype Value =
    | Text(text: string) | Flag(flag: bool) | Count(count: int) | Time(time: Option<int>)
    | Visibility(vis: Vis) | View(view: PortalView) | Events(feed: Feed)

  // ── parsing one value ───────────────────────────────────────────────────────

  // unicode.IsSpace.
  predicate IsSpace(c: char) {
    var x := c as int;
    || 9 <= x <= 13 || x == 32 || x == 0x85 || x == 0xA0 || x == 0x1680 || 0x2000 <= x <= 0x200A
    || x == 0x2028 || x == 0x2029 || x == 0x202F || x == 0x205F || x == 0x3000
  }

  function TrimLeft(s: string): string {
    if s != "" && IsSpace(s[0]) then TrimLeft(s[1..]) else s
  }

  function TrimRight(s: string): string {
    if s != "" && IsSpace(s[|s| - 1]) then TrimRight(s[..|s| - 1]) else s
  }

  function TrimSpace(s: string): string { TrimRight(TrimLeft(s)) }

  predicate Blank(s: string) { TrimSpace(s) == "" }

  function ParseBool(s: string): Option<bool> {
    if s == "true" then Some(true) else if s == "false" then Some(false) else None
  }

  predicate IsDigit(c: char) { '0' <= c <= '9' }

  function Digits(s: string): Option<nat> {
    if s == "" || !IsDigit(s[|s| - 1]) then None
    else
      var last := (s[|s| - 1] as int) - ('0' as int);
      if |s| == 1 then Some(last)
      else
        match Digits(s[..|s| - 1])
        case None => None
        case Some(n) => Some(10 * n + last)
  }

  // ParseInt in base 10 with 64 bits, and Atoi: an optional sign, digits, and the int64 range.
  function ParseInt(s: string): (r: Option<int>) {
    if s == "" then None
    else
      var neg, body := s[0] == '-', if s[0] == '-' || s[0] == '+' then s[1..] else s;
      match Digits(body)
      case None => None
      case Some(n) =>
        if neg && Decay.Fits8(0 - n) then Some(0 - n)
        else if !neg && Decay.Fits8(n) then Some(n)
        else None
  }

  function ParseCount(s: string): Option<int> {
    match ParseInt(s)
    case None => None
    case Some(n) => if n < 0 then None else Some(n)
  }

  function ParseVis(s: string): Option<Vis> {
    if s == "public" then Some(Public) else if s == "private" then Some(Private)
    else if s == "admins" then Some(Admins) else if s == "hidden" then Some(Hidden)
    else if s == "mlc" then Some(Mlc) else None
  }

  function ParseView(s: string): Option<PortalView> {
    if s == "standard" then Some(Standard) else if s == "globe" then Some(Globe) else None
  }

  function ParseMode(s: string): Option<Mode> {
    if s == "users" then Some(Users) else if s == "teams" then Some(Teams) else None
  }

  function Split(s: string, sep: char): (parts: seq<string>)
    ensures |parts| > 0
  {
    if s == "" then [""]
    else
      var rest := Split(s[1..], sep);
      if s[0] == sep then [""] + rest else [[s[0]] + rest[0]] + rest[1..]
  }

  function FeedOf(tokens: seq<string>): Option<Feed> {
    if tokens == [] then Some(Feed(false, false))
    else
      match FeedOf(tokens[..|tokens| - 1])
      case None => None
      case Some(f) =>
        var tok := TrimSpace(tokens[|tokens| - 1]);
        if tok == "" then Some(f)
        else if tok == "first_blood" then Some(f.(firstBlood := true))
        else if tok == "solve" then Some(f.(solve := true))
        else None
  }

  /**
   * How single values are read. Everything below holds for any of these; `Source` is what the code uses,
   * over three library parsers this model does not open: an email address, an absolute http(s) URL with
   * a host, a JSON object of strings.
   */
  datatype Parsers = Parsers(
    blank: string -> bool, flag: string -> Option<bool>, count: string -> Option<int>, time: string -> Option<int>,
    vis: string -> Option<Vis>, view: string -> Option<PortalView>, feed: string -> Option<Feed>,
    mode: string -> Option<Mode>, withdrawn: string -> bool,
    email: string -> bool, url: string -> bool, tokens: string -> bool)

  function Source(email: string -> bool, url: string -> bool, tokens: string -> bool): Parsers {
    Parsers(Blank, ParseBool, ParseCount, ParseInt, ParseVis, ParseView, s => FeedOf(Split(s, ',')), ParseMode,
            s => TrimSpace(s) == "mlc", email, url, tokens)
  }

  /** The code's parsers treat the empty string as blank, and never read a negative count. */
  lemma SourceReads(email: string -> bool, url: string -> bool, tokens: string -> bool)
    ensures var p := Source(email, url, tokens);
            p.blank("") && forall v :: p.count(v).Some? ==> p.count(v).value >= 0
  {
  }

  // Which visibilities a key may hold; a stored "mlc" on registration reads as public.
  function VisFor(p: Parsers, k: Key, s: string): Option<Vis> {
    match p.vis(s)
    case None => None
    case Some(v) =>
      if v == Hidden && k != ScoreVisibility then None
      else if v == Mlc then (if k == RegistrationVisibility then Some(Public) else None)
      else Some(v)
  }

  // ── the registry ────────────────────────────────────────────────────────────

  // Which keys have a setter.
  predicate Modelled(k: Key) { !k.Other? && k != UserMode }

  function AsFlag(r: Option<bool>): Option<Value> { if r.Some? then Some(Flag(r.value)) else None }

  function AsCount(r: Option<int>): Option<Value> { if r.Some? then Some(Count(r.value)) else None }

  function AsVisibility(r: Option<Vis>): Option<Value> { if r.Some? then Some(Visibility(r.value)) else None }

  // What the key's setter makes of a value, or None for its error.
  function ValueOf(p: Parsers, k: Key, v: string): Option<Value>
    requires Modelled(k)
  {
    match k
    case CtfName => Some(Text(v))
    case CtfDescription => Some(Text(v))
    case CtfTheme => Some(Text(v))
    case ThemeTokens => if p.tokens(v) then Some(Text(v)) else None
    case CtfPortalView => if p.view(v).Some? then Some(View(p.view(v).value)) else None
    case Setup => AsFlag(p.flag(v))
    case ChallengeVisibility => AsVisibility(VisFor(p, k, v))
    case ScoreVisibility => AsVisibility(VisFor(p, k, v))
    case AccountVisibility => AsVisibility(VisFor(p, k, v))
    case RegistrationVisibility => AsVisibility(VisFor(p, k, v))
    case VerifyEmails => AsFlag(p.flag(v))
    case ViewAfterCtf => AsFlag(p.flag(v))
    case Paused => AsFlag(p.flag(v))
    case TeamCreation => AsFlag(p.flag(v))
    case Start => if p.time(v).Some? then Some(Time(p.time(v))) else None
    case End => if p.time(v).Some? then Some(Time(p.time(v))) else None
    case Freeze => if p.time(v).Some? then Some(Time(p.time(v))) else None
    case NumUsers => AsCount(p.count(v))
    case NumTeams => AsCount(p.count(v))
    case TeamSize => AsCount(p.count(v))
    case MailServer => Some(Text(v))
    case MailPort => AsCount(p.count(v))
    case MailUsername => Some(Text(v))
    case MailPassword => Some(Text(v))
    case MailTls => AsFlag(p.flag(v))
    case MailFromAddr => if p.email(v) then Some(Text(v)) else None
    case WebhookUrl => if p.url(v) then Some(Text(v)) else None
    case WebhookEnabled => AsFlag(p.flag(v))
    case WebhookEvents => if p.feed(v).Some? then Some(Events(p.feed(v).value)) else None
  }

  // The kind of value a key's field holds.
  predicate Typed(k: Key, v: Value) {
    match k
    case CtfName => v.Text?
    case CtfDescription => v.Text?
    case CtfTheme => v.Text?
    case ThemeTokens => v.Text?
    case CtfPortalView => v.View?
    case Setup => v.Flag?
    case ChallengeVisibility => v.Visibility?
    case ScoreVisibility => v.Visibility?
    case AccountVisibility => v.Visibility?
    case RegistrationVisibility => v.Visibility?
    case VerifyEmails => v.Flag?
    case ViewAfterCtf => v.Flag?
    case Paused => v.Flag?
    case TeamCreation => v.Flag?
    case Start => v.Time?
    case End => v.Time?
    case Freeze => v.Time?
    case NumUsers => v.Count?
    case NumTeams => v.Count?
    case TeamSize => v.Count?
    case MailServer => v.Text?
    case MailPort => v.Count?
    case MailUsername => v.Text?
    case MailPassword => v.Text?
    case MailTls => v.Flag?
    case MailFromAddr => v.Text?
    case WebhookUrl => v.Text?
    case WebhookEnabled => v.Flag?
    case WebhookEvents => v.Events?
    case UserMode => false
    case Other(_) => false
  }

  lemma ValuesAreTyped(p: Parsers, k: Key, v: string)
    requires Modelled(k) && ValueOf(p, k, v).Some?
    ensures Typed(k, ValueOf(p, k, v).value)
  {
  }

  // The field a key's setter assigns.
  function Put(s: Settings, k: Key, v: Value): Settings
    requires Typed(k, v)
  {
    match k
    case CtfName => s.(branding := s.branding.(ctfName := v.text))
    case CtfDescription => s.(branding := s.branding.(ctfDescription := v.text))
    case CtfTheme => s.(branding := s.branding.(theme := v.text))
    case ThemeTokens => s.(branding := s.branding.(themeTokens := v.text))
    case CtfPortalView => s.(branding := s.branding.(portalView := v.view))
    case ChallengeVisibility => s.(access := s.access.(challengeVis := v.vis))
    case ScoreVisibility => s.(access := s.access.(scoreVis := v.vis))
    case AccountVisibility => s.(access := s.access.(accountVis := v.vis))
    case RegistrationVisibility => s.(access := s.access.(registrationVis := v.vis))
    case Setup => s.(switches := s.switches.(setupDone := v.flag))
    case VerifyEmails => s.(switches := s.switches.(verifyEmails := v.flag))
    case ViewAfterCtf => s.(switches := s.switches.(viewAfterCtf := v.flag))
    case Paused => s.(switches := s.switches.(paused := v.flag))
    case TeamCreation => s.(switches := s.switches.(teamCreation := v.flag))
    case Start => s.(schedule := s.schedule.(start := v.time))
    case End => s.(schedule := s.schedule.(end := v.time))
    case Freeze => s.(schedule := s.schedule.(freeze := v.time))
    case NumUsers => s.(caps := s.caps.(numUsers := v.count))
    case NumTeams => s.(caps := s.caps.(numTeams := v.count))
    case TeamSize => s.(caps := s.caps.(teamSize := v.count))
    case MailServer => s.(mail := s.mail.(server := v.text))
    case MailPort => s.(mail := s.mail.(port := v.count))
    case MailUsername => s.(mail := s.mail.(username := v.text))
    case MailPassword => s.(mail := s.mail.(password := v.text))
    case MailTls => s.(mail := s.mail.(tls := v.flag))
    case MailFromAddr => s.(mail := s.mail.(sender := v.text))
    case WebhookUrl => s.(webhook := s.webhook.(url := v.text))
    case WebhookEnabled => s.(webhook := s.webhook.(enabled := v.flag))
    case WebhookEvents => s.(webhook := s.webhook.(events := v.feed))
  }

  // The field read back.
  function Field(s: Settings, k: Key): Value
    requires Modelled(k)
  {
    match k
    case CtfName => Text(s.branding.ctfName)
    case CtfDescription => Text(s.branding.ctfDescription)
    case CtfTheme => Text(s.branding.theme)
    case ThemeTokens => Text(s.branding.themeTokens)
    case CtfPortalView => View(s.branding.portalView)
    case ChallengeVisibility => Visibility(s.access.challengeVis)
    case ScoreVisibility => Visibility(s.access.scoreVis)
    case AccountVisibility => Visibility(s.access.accountVis)
    case RegistrationVisibility => Visibility(s.access.registrationVis)
    case Setup => Flag(s.switches.setupDone)
    case VerifyEmails => Flag(s.switches.verifyEmails)
    case ViewAfterCtf => Flag(s.switches.viewAfterCtf)
    case Paused => Flag(s.switches.paused)
    case TeamCreation => Flag(s.switches.teamCreation)
    case Start => Time(s.schedule.start)
    case End => Time(s.schedule.end)
    case Freeze => Time(s.schedule.freeze)
    case NumUsers => Count(s.caps.numUsers)
    case NumTeams => Count(s.caps.numTeams)
    case TeamSize => Count(s.caps.teamSize)
    case MailServer => Text(s.mail.server)
    case MailPort => Count(s.mail.port)
    case MailUsername => Text(s.mail.username)
    case MailPassword => Text(s.mail.password)
    case MailTls => Flag(s.mail.tls)
    case MailFromAddr => Text(s.mail.sender)
    case WebhookUrl => Text(s.webhook.url)
    case WebhookEnabled => Flag(s.webhook.enabled)
    case WebhookEvents => Events(s.webhook.events)
  }

  function Defaults(): Settings {
    Settings(Branding("", "", "core", "", Standard), Access(Private, Public, Public, Public),
             Switches(false, false, false, false, true), Schedule(None, None, None), Caps(0, 0, 0),
             Mail("", 0, "", "", false, ""), Webhook("", false, Feed(true, false)))
  }

  lemma PutText(s: Settings, k: Key, v: Value, j: Key)
    requires v.Text? && Typed(k, v) && Modelled(j)
    ensures Field(Put(s, k, v), j) == if j == k then v else Field(s, j)
  {
  }

  lemma PutFlag(s: Settings, k: Key, v: Value, j: Key)
    requires v.Flag? && Typed(k, v) && Modelled(j)
    ensures Field(Put(s, k, v), j) == if j == k then v else Field(s, j)
  {
  }

  lemma PutVisibility(s: Settings, k: Key, v: Value, j: Key)
    requires v.Visibility? && Typed(k, v) && Modelled(j)
    ensures Field(Put(s, k, v), j) == if j == k then v else Field(s, j)
  {
  }

  /** Distinct keys write disjoint fields. */
  lemma PutField(s: Settings, k: Key, v: Value, j: Key)
    requires Typed(k, v) && Modelled(j)
    ensures Field(Put(s, k, v), j) == if j == k then v else Field(s, j)
  {
    match v {
      case Text(_) => PutText(s, k, v, j);
      case Flag(_) => PutFlag(s, k, v, j);
      case Count(_) =>
      case Time(_) =>
      case Visibility(_) => PutVisibility(s, k, v, j);
      case View(_) =>
      case Events(_) =>
    }
  }

  lemma BrandingDecided(s: Settings, t: Settings)
    requires forall k :: Modelled(k) ==> Field(s, k) == Field(t, k)
    ensures s.branding == t.branding
  {
    assert Field(s, CtfName) == Field(t, CtfName);
    assert Field(s, CtfDescription) == Field(t, CtfDescription);
    assert Field(s, CtfTheme) == Field(t, CtfTheme);
    assert Field(s, ThemeTokens) == Field(t, ThemeTokens);
    assert Field(s, CtfPortalView) == Field(t, CtfPortalView);
  }

  lemma SwitchesDecided(s: Settings, t: Settings)
    requires forall k :: Modelled(k) ==> Field(s, k) == Field(t, k)
    ensures s.switches == t.switches
  {
    assert Field(s, Setup) == Field(t, Setup);
    assert Field(s, VerifyEmails) == Field(t, VerifyEmails);
    assert Field(s, ViewAfterCtf) == Field(t, ViewAfterCtf);
    assert Field(s, Paused) == Field(t, Paused);
    assert Field(s, TeamCreation) == Field(t, TeamCreation);
  }

  lemma ScheduleAndCapsDecided(s: Settings, t: Settings)
    requires forall k :: Modelled(k) ==> Field(s, k) == Field(t, k)
    ensures s.schedule == t.schedule && s.caps == t.caps
  {
    assert Field(s, Start) == Field(t, Start);
    assert Field(s, End) == Field(t, End);
    assert Field(s, Freeze) == Field(t, Freeze);
    assert Field(s, NumUsers) == Field(t, NumUsers);
    assert Field(s, NumTeams) == Field(t, NumTeams);
    assert Field(s, TeamSize) == Field(t, TeamSize);
  }

  lemma MailDecided(s: Settings, t: Settings)
    requires forall k :: Modelled(k) ==> Field(s, k) == Field(t, k)
    ensures s.mail == t.mail
  {
    assert Field(s, MailServer) == Field(t, MailServer);
    assert Field(s, MailPort) == Field(t, MailPort);
    assert Field(s, MailUsername) == Field(t, MailUsername);
    assert Field(s, MailPassword) == Field(t, MailPassword);
    assert Field(s, MailTls) == Field(t, MailTls);
    assert Field(s, MailFromAddr) == Field(t, MailFromAddr);
  }

  lemma WebhookAndAccessDecided(s: Settings, t: Settings)
    requires forall k :: Modelled(k) ==> Field(s, k) == Field(t, k)
    ensures s.webhook == t.webhook && s.access == t.access
  {
    assert Field(s, ChallengeVisibility) == Field(t, ChallengeVisibility);
    assert Field(s, ScoreVisibility) == Field(t, ScoreVisibility);
    assert Field(s, AccountVisibility) == Field(t, AccountVisibility);
    assert Field(s, RegistrationVisibility) == Field(t, RegistrationVisibility);
    assert Field(s, WebhookUrl) == Field(t, WebhookUrl);
    assert Field(s, WebhookEnabled) == Field(t, WebhookEnabled);
    assert Field(s, WebhookEvents) == Field(t, WebhookEvents);
  }

  /** The fields are the whole struct. */
  lemma FieldsDecide(s: Settings, t: Settings)
    requires forall k :: Modelled(k) ==> Field(s, k) == Field(t, k)
    ensures s == t
  {
    BrandingDecided(s, t);
    SwitchesDecided(s, t);
    ScheduleAndCapsDecided(s, t);
    MailDecided(s, t);
    WebhookAndAccessDecided(s, t);
  }

  // ── what the snapshot of a table is ─────────────────────────────────────────

  // What a key contributes: absent, blank and unacceptable rows leave the default.
  function Expected(p: Parsers, rows: Rows, k: Key): Value
    requires Modelled(k)
  {
    if k in rows && !p.blank(rows[k]) && ValueOf(p, k, rows[k]).Some? then ValueOf(p, k, rows[k]).value
    else Field(Defaults(), k)
  }

  // The load substitutes for a stored value only here.
  predicate Repaired(p: Parsers, rows: Rows) {
    var k := RegistrationVisibility;
    k in rows && !p.blank(rows[k]) && p.vis(rows[k]) == Some(Mlc)
  }

  function ModeOf(mode: Option<Mode>): Mode { if mode.None? then Users else mode.value }

  /** `s` is the snapshot of the table: no order, and each field from one key. */
  ghost predicate IsSnapshot(p: Parsers, rows: Rows, mode: Option<Mode>, s: Snapshot) {
    && (forall k {:trigger Field(s.settings, k)} :: Modelled(k) ==> Field(s.settings, k) == Expected(p, rows, k))
    && s.mode == ModeOf(mode)
    && s.raw == rows
    && s.repairs == (if Repaired(p, rows) then [MlcRepair] else [])
  }

  /** A table has one snapshot. */
  lemma SnapshotUnique(p: Parsers, rows: Rows, mode: Option<Mode>, s: Snapshot, t: Snapshot)
    requires IsSnapshot(p, rows, mode, s) && IsSnapshot(p, rows, mode, t)
    ensures s == t
  {
    FieldsDecide(s.settings, t.settings);
  }

  datatype Problem = BadValue(key: Key) | BadMode

  predicate KeyParses(p: Parsers, rows: Rows, k: Key) {
    k in rows && Modelled(k) && !p.blank(rows[k]) ==> ValueOf(p, k, rows[k]).Some?
  }

  // checkModeAgreement: a stored user_mode must parse, and match the instance once there is one.
  predicate ModeAgrees(p: Parsers, rows: Rows, mode: Option<Mode>) {
    UserMode in rows && !p.blank(rows[UserMode]) ==>
      && p.mode(rows[UserMode]).Some?
      && (mode.Some? ==> p.mode(rows[UserMode]) == mode)
  }

  ghost predicate HasProblem(p: Parsers, rows: Rows, mode: Option<Mode>, q: Problem) {
    match q
    case BadValue(k) => !KeyParses(p, rows, k)
    case BadMode => !ModeAgrees(p, rows, mode)
  }

  predicate Parses(p: Parsers, rows: Rows, mode: Option<Mode>) {
    (forall k :: k in rows ==> KeyParses(p, rows, k)) && ModeAgrees(p, rows, mode)
  }

  // ── the loop ────────────────────────────────────────────────────────────────

  // The state once the rows of `done` have been read.
  ghost predicate Loaded(p: Parsers, rows: Rows, mode: Option<Mode>, done: set<Key>, s: Snapshot, problems: seq<Problem>) {
    && (forall k {:trigger Field(s.settings, k)} :: Modelled(k) ==>
          Field(s.settings, k) == if k in done then Expected(p, rows, k) else Field(Defaults(), k))
    && s.mode == ModeOf(mode)
    && (forall k :: k in s.raw <==> k in rows && k in done)
    && (forall k :: k in s.raw ==> s.raw[k] == rows[k])
    && s.repairs == (if Repaired(p, rows) && RegistrationVisibility in done then [MlcRepair] else [])
    && (forall q :: q in problems <==> q.BadValue? && q.key in done && !KeyParses(p, rows, q.key))
    && forall i, j :: 0 <= i < j < |problems| ==> problems[i] != problems[j]
  }

  // A row that feeds no field.
  lemma PassOver(p: Parsers, rows: Rows, mode: Option<Mode>, done: set<Key>, s: Snapshot, problems: seq<Problem>, k: Key, bad: bool)
    requires Loaded(p, rows, mode, done, s, problems) && k in rows && k !in done
    requires if bad then Modelled(k) && !p.blank(rows[k]) && ValueOf(p, k, rows[k]).None? else !Modelled(k) || p.blank(rows[k])
    ensures Loaded(p, rows, mode, done + {k}, s.(raw := s.raw[k := rows[k]]), if bad then problems + [BadValue(k)] else problems)
  {
  }

  lemma PutRow(p: Parsers, rows: Rows, done: set<Key>, s: Settings, k: Key, v: Value)
    requires forall j {:trigger Field(s, j)} :: Modelled(j) ==> Field(s, j) == if j in done then Expected(p, rows, j) else Field(Defaults(), j)
    requires Typed(k, v) && Modelled(k) && v == Expected(p, rows, k)
    ensures forall j {:trigger Field(Put(s, k, v), j)} :: Modelled(j) ==>
              Field(Put(s, k, v), j) == if j in done + {k} then Expected(p, rows, j) else Field(Defaults(), j)
  {
    forall j | Modelled(j)
      ensures Field(Put(s, k, v), j) == if j in done + {k} then Expected(p, rows, j) else Field(Defaults(), j)
    {
      PutField(s, k, v, j);
    }
  }

  lemma AcceptRow(p: Parsers, rows: Rows, mode: Option<Mode>, done: set<Key>, s: Snapshot, problems: seq<Problem>, k: Key, v: Value)
    requires Loaded(p, rows, mode, done, s, problems) && k in rows && k !in done
    requires Modelled(k) && !p.blank(rows[k]) && ValueOf(p, k, rows[k]) == Some(v)
    ensures Typed(k, v)
    ensures Loaded(p, rows, mode, done + {k},
                   Snapshot(Put(s.settings, k, v), s.mode, s.raw[k := rows[k]],
                            if k == RegistrationVisibility && p.vis(rows[k]) == Some(Mlc) then s.repairs + [MlcRepair]
                            else s.repairs), problems)
  {
    ValuesAreTyped(p, k, rows[k]);
    PutRow(p, rows, done, s.settings, k, v);
  }

  // What reading one row does to the snapshot and the problems.
  method ReadRow(p: Parsers, ghost rows: Rows, ghost mode: Option<Mode>, ghost done: set<Key>,
                 s: Snapshot, problems: seq<Problem>, k: Key, v: string)
      returns (s': Snapshot, problems': seq<Problem>)
    requires Loaded(p, rows, mode, done, s, problems) && k in rows && k !in done && rows[k] == v
    ensures Loaded(p, rows, mode, done + {k}, s', problems')
  {
    s', problems' := s.(raw := s.raw[k := v]), problems;
    if !Modelled(k) || p.blank(v) {
      PassOver(p, rows, mode, done, s, problems, k, false);
      return;
    }
    var value := ValueOf(p, k, v);
    if value.None? {
      PassOver(p, rows, mode, done, s, problems, k, true);
      problems' := problems + [BadValue(k)];
      return;
    }
    AcceptRow(p, rows, mode, done, s, problems, k, value.value);
    s' := s'.(settings := Put(s.settings, k, value.value));
    if k == RegistrationVisibility && p.vis(v) == Some(Mlc) {
      s' := s'.(repairs := s.repairs + [MlcRepair]);
    }
  }

  method ReadRows(p: Parsers, rows: Rows, mode: Option<Mode>) returns (snap: Snapshot, problems: seq<Problem>)
    ensures Loaded(p, rows, mode, rows.Keys, snap, problems)
  {
    snap, problems := Snapshot(Defaults(), ModeOf(mode), map[], []), [];
    ghost var done: set<Key> := {};
    var left := rows.Keys;
    while left != {}
      invariant left <= rows.Keys && done == rows.Keys - left
      invariant Loaded(p, rows, mode, done, snap, problems)
    {
      var k :| k in left;
      snap, problems := ReadRow(p, rows, mode, done, snap, problems, k, rows[k]);
      left := left - {k};
      done := done + {k};
    }
    assert done == rows.Keys;
  }

  /** Whatever order the rows are walked in: the snapshot of the table, or exactly its problems, each once. */
  method BuildParsed(p: Parsers, rows: Rows, mode: Option<Mode>) returns (r: Result<Snapshot, seq<Problem>>)
    ensures r.Ok? <==> Parses(p, rows, mode)
    ensures r.Ok? ==> IsSnapshot(p, rows, mode, r.value)
    ensures r.Err? ==> forall q :: q in r.error <==> HasProblem(p, rows, mode, q)
    ensures r.Err? ==> forall i, j :: 0 <= i < j < |r.error| ==> r.error[i] != r.error[j]
  {
    var snap, problems := ReadRows(p, rows, mode);
    AllLoaded(p, rows, mode, rows.Keys, snap, problems);
    if !ModeAgrees(p, rows, mode) { problems := problems + [BadMode]; }
    r := if problems != [] then Err(problems) else Ok(snap);
  }

  lemma AllLoaded(p: Parsers, rows: Rows, mode: Option<Mode>, done: set<Key>, s: Snapshot, problems: seq<Problem>)
    requires Loaded(p, rows, mode, done, s, problems) && done == rows.Keys
    ensures IsSnapshot(p, rows, mode, s)
    ensures var all := if ModeAgrees(p, rows, mode) then problems else problems + [BadMode];
            && (all == [] <==> Parses(p, rows, mode))
            && (forall q :: q in all <==> HasProblem(p, rows, mode, q))
            && forall i, j :: 0 <= i < j < |all| ==> all[i] != all[j]
  {
    assert s.raw == rows;
    EveryProblem(p, rows, mode, done, problems);
  }

  lemma EveryProblem(p: Parsers, rows: Rows, mode: Option<Mode>, done: set<Key>, problems: seq<Problem>)
    requires done == rows.Keys
    requires forall q :: q in problems <==> q.BadValue? && q.key in done && !KeyParses(p, rows, q.key)
    requires forall i, j :: 0 <= i < j < |problems| ==> problems[i] != problems[j]
    ensures var all := if ModeAgrees(p, rows, mode) then problems else problems + [BadMode];
            && (all == [] <==> Parses(p, rows, mode))
            && (forall q :: q in all <==> HasProblem(p, rows, mode, q))
            && forall i, j :: 0 <= i < j < |all| ==> all[i] != all[j]
  {
    assert forall i :: 0 <= i < |problems| ==> problems[i] in problems;
    assert forall k :: k in rows && !KeyParses(p, rows, k) ==> BadValue(k) in problems;
    if problems != [] { assert problems[0] in problems; }
  }
}
