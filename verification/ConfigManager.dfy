/**
 * The config manager: boot, refresh and write, over nine rules that each read several keys.
 */
module ConfigManager {
  import opened Prelude
  import opened ConfigSnapshot
  import Decay

  // ── the rules ───────────────────────────────────────────────────────────────

  datatype Rule =
    | EndAfterStart | FreezeNotBeforeStart | FreezeNotAfterEnd | TeamSizeNeedsTeams
    | MailNeedsPort | MailNeedsSender | PasswordNeedsUsername | VerifyNeedsMail | WebhookNeedsUrl

  const RULES: seq<Rule> :=
    [EndAfterStart, FreezeNotBeforeStart, FreezeNotAfterEnd, TeamSizeNeedsTeams,
     MailNeedsPort, MailNeedsSender, PasswordNeedsUsername, VerifyNeedsMail, WebhookNeedsUrl]

  // The keys a rule declares it reads.
  function RuleKeys(r: Rule): seq<Key> {
    match r
    case EndAfterStart => [Start, End]
    case FreezeNotBeforeStart => [Freeze, Start]
    case FreezeNotAfterEnd => [Freeze, End]
    case TeamSizeNeedsTeams => [TeamSize, UserMode]
    case MailNeedsPort => [MailServer, MailPort]
    case MailNeedsSender => [MailServer, MailFromAddr]
    case PasswordNeedsUsername => [MailPassword, MailUsername]
    case VerifyNeedsMail => [VerifyEmails, MailServer]
    case WebhookNeedsUrl => [WebhookEnabled, WebhookUrl]
  }

  // time.Unix shifts the seconds to year 1 in int64, which wraps; After and Before compare the result.
  function Instant(secs: int): int { Decay.Wrap(secs + 62_135_596_800) }

  predicate After(a: Option<int>, b: Option<int>) {
    a.Some? && b.Some? && Instant(a.value) > Instant(b.value)
  }

  predicate Breaks(s: Settings, mode: Mode, r: Rule) {
    match r
    case EndAfterStart => s.schedule.start.Some? && s.schedule.end.Some? && !After(s.schedule.end, s.schedule.start)
    case FreezeNotBeforeStart => After(s.schedule.start, s.schedule.freeze)
    case FreezeNotAfterEnd => After(s.schedule.freeze, s.schedule.end)
    case TeamSizeNeedsTeams => mode == Users && s.caps.teamSize > 0
    case MailNeedsPort => s.mail.server != "" && !(1 <= s.mail.port <= 65535)
    case MailNeedsSender => s.mail.server != "" && s.mail.sender == ""
    case PasswordNeedsUsername => s.mail.password != "" && s.mail.username == ""
    case VerifyNeedsMail => s.switches.verifyEmails && s.mail.server == ""
    case WebhookNeedsUrl => s.webhook.enabled && s.webhook.url == ""
  }

  // ── what a table violates ───────────────────────────────────────────────────

  const ALL_KEYS: seq<Key> :=
    [CtfName, CtfDescription, CtfTheme, ThemeTokens, CtfPortalView, Setup,
     ChallengeVisibility, ScoreVisibility, AccountVisibility, RegistrationVisibility,
     VerifyEmails, ViewAfterCtf, Paused, TeamCreation, Start, End, Freeze, NumUsers, NumTeams, TeamSize,
     MailServer, MailUsername, MailPassword, MailPort, MailTls, MailFromAddr, WebhookUrl, WebhookEnabled, WebhookEvents]

  lemma ExpectedIsTyped(p: Parsers, rows: Rows, k: Key)
    requires Modelled(k)
    ensures Typed(k, Expected(p, rows, k))
  {
    if k in rows && !p.blank(rows[k]) && ValueOf(p, k, rows[k]).Some? { ValuesAreTyped(p, k, rows[k]); }
  }

  ghost function Fill(p: Parsers, rows: Rows, keys: seq<Key>): Settings {
    if keys == [] then Defaults()
    else
      var k := keys[|keys| - 1];
      var before := Fill(p, rows, keys[..|keys| - 1]);
      if !Modelled(k) then before
      else ExpectedIsTyped(p, rows, k); Put(before, k, Expected(p, rows, k))
  }

  lemma FilledOneMore(p: Parsers, rows: Rows, before: Settings, k: Key, j: Key)
    requires Modelled(k) && Modelled(j)
    ensures Typed(k, Expected(p, rows, k))
    ensures Field(Put(before, k, Expected(p, rows, k)), j) == if j == k then Expected(p, rows, j) else Field(before, j)
  {
    ExpectedIsTyped(p, rows, k);
    PutField(before, k, Expected(p, rows, k), j);
  }

  lemma {:induction false} Filled(p: Parsers, rows: Rows, keys: seq<Key>, j: Key)
    requires Modelled(j)
    ensures Field(Fill(p, rows, keys), j) == if j in keys then Expected(p, rows, j) else Field(Defaults(), j)
  {
    if keys != [] {
      var init, k := keys[..|keys| - 1], keys[|keys| - 1];
      Filled(p, rows, init, j);
      assert keys == init + [k];
      assert j in keys <==> j in init || j == k;
      if Modelled(k) { FilledOneMore(p, rows, Fill(p, rows, init), k, j); } else { assert j != k; }
    }
  }

  /** The settings a table stands for, whether or not all of it parses. */
  ghost function SettingsOf(p: Parsers, rows: Rows): Settings { Fill(p, rows, ALL_KEYS) }

  lemma ModelledIsListed(k: Key)
    requires Modelled(k)
    ensures k in ALL_KEYS
  {
  }

  lemma SnapshotSettings(p: Parsers, rows: Rows, mode: Option<Mode>, s: Snapshot)
    requires IsSnapshot(p, rows, mode, s)
    ensures s.settings == SettingsOf(p, rows)
  {
    forall k | Modelled(k) ensures Field(s.settings, k) == Field(SettingsOf(p, rows), k) {
      Filled(p, rows, ALL_KEYS, k);
      ModelledIsListed(k);
    }
    FieldsDecide(s.settings, SettingsOf(p, rows));
  }

  ghost predicate Violated(p: Parsers, rows: Rows, mode: Option<Mode>, r: Rule) {
    Breaks(SettingsOf(p, rows), ModeOf(mode), r)
  }

  ghost predicate AgreeOn(rows: Rows, rows': Rows, keys: seq<Key>) {
    forall k :: k in keys ==> (k in rows <==> k in rows') && (k in rows ==> rows'[k] == rows[k])
  }

  lemma SameField(p: Parsers, rows: Rows, rows': Rows, r: Rule, k: Key)
    requires AgreeOn(rows, rows', RuleKeys(r)) && k in RuleKeys(r) && Modelled(k)
    ensures Field(SettingsOf(p, rows), k) == Field(SettingsOf(p, rows'), k)
  {
    Filled(p, rows, ALL_KEYS, k);
    Filled(p, rows', ALL_KEYS, k);
    assert Expected(p, rows, k) == Expected(p, rows', k);
  }

  /** A rule's verdict depends on nothing but its declared keys and the instance mode. */
  lemma VerdictReadsItsKeys(p: Parsers, rows: Rows, rows': Rows, mode: Option<Mode>, r: Rule)
    requires AgreeOn(rows, rows', RuleKeys(r))
    ensures Violated(p, rows, mode, r) <==> Violated(p, rows', mode, r)
  {
    var s, s' := SettingsOf(p, rows), SettingsOf(p, rows');
    var k := RuleKeys(r);
    forall i | 0 <= i < 2 && Modelled(k[i]) ensures Field(s, k[i]) == Field(s', k[i]) {
      SameField(p, rows, rows', r, k[i]);
    }
    SameVerdict(s, s', ModeOf(mode), r);
  }

  lemma SameVerdict(s: Settings, s': Settings, mode: Mode, r: Rule)
    requires forall k :: k in RuleKeys(r) && Modelled(k) ==> Field(s, k) == Field(s', k)
    ensures Breaks(s, mode, r) <==> Breaks(s', mode, r)
  {
    var a, b := RuleKeys(r)[0], RuleKeys(r)[1];
    assert a in RuleKeys(r) && b in RuleKeys(r);
    if r in {EndAfterStart, FreezeNotBeforeStart, FreezeNotAfterEnd} { SameSchedule(s, s', mode, r); }
    else if r in {MailNeedsPort, MailNeedsSender, PasswordNeedsUsername} { SameMail(s, s', mode, r, a, b); }
    else { SameSwitch(s, s', mode, r, a, b); }
  }

  lemma SameSchedule(s: Settings, s': Settings, mode: Mode, r: Rule)
    requires r in {EndAfterStart, FreezeNotBeforeStart, FreezeNotAfterEnd}
    requires forall k :: k in RuleKeys(r) && Modelled(k) ==> Field(s, k) == Field(s', k)
    ensures Breaks(s, mode, r) <==> Breaks(s', mode, r)
  {
    var keys := RuleKeys(r);
    assert keys[0] in keys && keys[1] in keys;
    assert Field(s, keys[0]) == Field(s', keys[0]) && Field(s, keys[1]) == Field(s', keys[1]);
  }

  lemma SameMail(s: Settings, s': Settings, mode: Mode, r: Rule, a: Key, b: Key)
    requires r in {MailNeedsPort, MailNeedsSender, PasswordNeedsUsername} && RuleKeys(r) == [a, b]
    requires Modelled(a) && Modelled(b) && Field(s, a) == Field(s', a) && Field(s, b) == Field(s', b)
    ensures Breaks(s, mode, r) <==> Breaks(s', mode, r)
  {
  }

  lemma SameSwitch(s: Settings, s': Settings, mode: Mode, r: Rule, a: Key, b: Key)
    requires r in {TeamSizeNeedsTeams, VerifyNeedsMail, WebhookNeedsUrl} && RuleKeys(r) == [a, b]
    requires Modelled(a) && Field(s, a) == Field(s', a) && (Modelled(b) ==> Field(s, b) == Field(s', b))
    ensures Breaks(s, mode, r) <==> Breaks(s', mode, r)
  {
  }

  /** Without the wrap the time rules are the order of the stored seconds; the shift overflows only past here. */
  lemma InstantKeepsOrderIff(a: int)
    requires Decay.Fits8(a)
    ensures (forall b: int :: Decay.Fits8(b) && b < a ==> Instant(b) < Instant(a))
       <==> a < Decay.INT8 - 62_135_596_800
  {
    if a >= Decay.INT8 - 62_135_596_800 {
      assert Instant(0) > Instant(a);
    }
  }

  // ── what a write is worth ───────────────────────────────────────────────────

  datatype Verdict = Stored | Withdrawn | Unparsable | Incoherent | UnderDeclared

  predicate TouchesAny(r: Rule, kv: Rows) {
    exists i :: 0 <= i < |RuleKeys(r)| && RuleKeys(r)[i] in kv
  }

  predicate WritesWithdrawn(p: Parsers, kv: Rows) {
    RegistrationVisibility in kv && p.withdrawn(kv[RegistrationVisibility])
  }

  // A rule broken after the write, that the write does not touch, and that was not broken before it.
  ghost predicate NewlyBroken(p: Parsers, current: Rows, kv: Rows, mode: Option<Mode>, r: Rule) {
    && Violated(p, current + kv, mode, r)
    && !TouchesAny(r, kv)
    && !(Parses(p, current, mode) && Violated(p, current, mode, r))
  }

  ghost function Judge(p: Parsers, current: Rows, kv: Rows, mode: Option<Mode>): Verdict {
    if WritesWithdrawn(p, kv) then Withdrawn
    else if !Parses(p, current + kv, mode) then Unparsable
    else if exists r :: NewlyBroken(p, current, kv, mode, r) then UnderDeclared
    else if exists r :: Violated(p, current + kv, mode, r) && TouchesAny(r, kv) then Incoherent
    else Stored
  }

  /** While the stored table parses, the under-declared backstop cannot be reached. */
  lemma BackstopUnreachable(p: Parsers, current: Rows, kv: Rows, mode: Option<Mode>)
    requires Parses(p, current, mode)
    ensures Judge(p, current, kv, mode) != UnderDeclared
  {
    forall r ensures !NewlyBroken(p, current, kv, mode, r) {
      if !TouchesAny(r, kv) {
        VerdictReadsItsKeys(p, current, current + kv, mode, r);
      }
    }
  }

  /** While it parses, coherence refuses a write exactly when a rule the write touches would be broken. */
  lemma IncoherentIff(p: Parsers, current: Rows, kv: Rows, mode: Option<Mode>)
    requires Parses(p, current, mode)
    ensures Judge(p, current, kv, mode) == Incoherent
       <==> && !WritesWithdrawn(p, kv) && Parses(p, current + kv, mode)
            && exists r :: Violated(p, current + kv, mode, r) && TouchesAny(r, kv)
  {
    BackstopUnreachable(p, current, kv, mode);
  }

  // The same judgement had the code no backstop.
  ghost function JudgeWithoutBackstop(p: Parsers, current: Rows, kv: Rows, mode: Option<Mode>): Verdict {
    if WritesWithdrawn(p, kv) then Withdrawn
    else if !Parses(p, current + kv, mode) then Unparsable
    else if exists r :: Violated(p, current + kv, mode, r) && TouchesAny(r, kv) then Incoherent
    else Stored
  }

  /** So over a table that parses the backstop decides nothing. */
  lemma BackstopDecidesNothing(p: Parsers, current: Rows, kv: Rows, mode: Option<Mode>)
    requires Parses(p, current, mode)
    ensures Judge(p, current, kv, mode) == JudgeWithoutBackstop(p, current, kv, mode)
  {
    BackstopUnreachable(p, current, kv, mode);
  }

  /**
   * Even without the backstop, and whether or not the table parsed before, a stored write leaves it parsing
   * and breaks no rule it did not find broken.
   */
  lemma StoredBreaksNothing(p: Parsers, current: Rows, kv: Rows, mode: Option<Mode>, r: Rule)
    requires JudgeWithoutBackstop(p, current, kv, mode) == Stored && Violated(p, current + kv, mode, r)
    ensures Parses(p, current + kv, mode)
    ensures Violated(p, current, mode, r) && !TouchesAny(r, kv)
  {
    VerdictReadsItsKeys(p, current, current + kv, mode, r);
  }

  /** A table New accepts. */
  ghost predicate Bootable(p: Parsers, rows: Rows, mode: Option<Mode>) {
    Parses(p, rows, mode) && forall r :: !Violated(p, rows, mode, r)
  }

  // The row is there and says something.
  predicate Given(p: Parsers, rows: Rows, k: Key) { k in rows && !p.blank(rows[k]) }

  predicate Says(p: Parsers, rows: Rows, k: Key, b: bool) {
    Given(p, rows, k) && p.flag(rows[k]) == Some(b)
  }

  // `a` is later than `b`, both given.
  predicate Later(p: Parsers, rows: Rows, a: Key, b: Key) {
    && Given(p, rows, a) && Given(p, rows, b)
    && p.time(rows[a]).Some? && p.time(rows[b]).Some?
    && Instant(p.time(rows[a]).value) > Instant(p.time(rows[b]).value)
  }

  predicate CountIn(p: Parsers, rows: Rows, k: Key, low: int, high: int) {
    Given(p, rows, k) && p.count(rows[k]).Some? && low <= p.count(rows[k]).value <= high
  }

  // What a rule asks of the stored strings themselves.
  predicate Satisfied(p: Parsers, rows: Rows, mode: Option<Mode>, r: Rule) {
    match r
    case EndAfterStart => Given(p, rows, Start) && Given(p, rows, End) ==> Later(p, rows, End, Start)
    case FreezeNotBeforeStart => !Later(p, rows, Start, Freeze)
    case FreezeNotAfterEnd => !Later(p, rows, Freeze, End)
    case TeamSizeNeedsTeams => mode == Some(Teams) || !Given(p, rows, TeamSize) || CountIn(p, rows, TeamSize, 0, 0)
    case MailNeedsPort => Given(p, rows, MailServer) ==> CountIn(p, rows, MailPort, 1, 65535)
    case MailNeedsSender => Given(p, rows, MailServer) ==> Given(p, rows, MailFromAddr)
    case PasswordNeedsUsername => Given(p, rows, MailPassword) ==> Given(p, rows, MailUsername)
    case VerifyNeedsMail => Says(p, rows, VerifyEmails, true) ==> Given(p, rows, MailServer)
    case WebhookNeedsUrl => Says(p, rows, WebhookEnabled, true) ==> Given(p, rows, WebhookUrl)
  }

  // What the loaded field of a key is, in terms of its row.
  predicate LoadsAs(p: Parsers, rows: Rows, k: Key, f: Value)
    requires Modelled(k)
  {
    if Given(p, rows, k) then ValueOf(p, k, rows[k]) == Some(f) else f == Field(Defaults(), k)
  }

  lemma KeyLoads(p: Parsers, rows: Rows, mode: Option<Mode>, k: Key)
    requires Parses(p, rows, mode) && Modelled(k)
    ensures LoadsAs(p, rows, k, Field(SettingsOf(p, rows), k))
  {
    Filled(p, rows, ALL_KEYS, k);
    ModelledIsListed(k);
    assert k in rows ==> KeyParses(p, rows, k);
  }

  // The empty string is blank, and counts are not negative: SourceReads.
  ghost predicate Sane(p: Parsers) {
    p.blank("") && forall v :: p.count(v).Some? ==> p.count(v).value >= 0
  }

  // What a field of any kind says, read off its row.
  predicate Reads(p: Parsers, rows: Rows, k: Key, v: Value) {
    match v
    case Text(t) => t == if Given(p, rows, k) then rows[k] else ""
    case Count(n) => if Given(p, rows, k) then p.count(rows[k]) == Some(n) else n == 0
    case Flag(b) => if Given(p, rows, k) then p.flag(rows[k]) == Some(b) else !b
    case Time(t) => if Given(p, rows, k) then t.Some? && p.time(rows[k]) == t else t.None?
    case _ => true
  }

  // Both fields of a rule do.
  ghost predicate FieldsRead(p: Parsers, rows: Rows, s: Settings, r: Rule) {
    forall k :: k in RuleKeys(r) && Modelled(k) ==> Reads(p, rows, k, Field(s, k))
  }

  // The keys the rules read, but for the mode.
  predicate Ruled(k: Key) {
    k in {Start, End, Freeze, TeamSize, MailServer, MailPort, MailFromAddr, MailPassword, MailUsername,
          VerifyEmails, WebhookEnabled, WebhookUrl}
  }

  lemma LoadedReads(p: Parsers, rows: Rows, k: Key, f: Value)
    requires Ruled(k) && LoadsAs(p, rows, k, f)
    ensures Reads(p, rows, k, f)
  {
  }

  lemma RuleReads(p: Parsers, rows: Rows, mode: Option<Mode>, r: Rule)
    requires Parses(p, rows, mode)
    ensures FieldsRead(p, rows, SettingsOf(p, rows), r)
  {
    forall k | k in RuleKeys(r) && Modelled(k) ensures Reads(p, rows, k, Field(SettingsOf(p, rows), k)) {
      KeyLoads(p, rows, mode, k);
      LoadedReads(p, rows, k, Field(SettingsOf(p, rows), k));
    }
  }

  // On settings whose two fields say what the rule's two rows do, the rule judges the rows.
  lemma ScheduleInRows(p: Parsers, rows: Rows, mode: Option<Mode>, s: Settings, r: Rule)
    requires r in {EndAfterStart, FreezeNotBeforeStart, FreezeNotAfterEnd}
    requires FieldsRead(p, rows, s, r)
    ensures Breaks(s, ModeOf(mode), r) <==> !Satisfied(p, rows, mode, r)
  {
    var a, b := RuleKeys(r)[0], RuleKeys(r)[1];
    assert a in RuleKeys(r) && b in RuleKeys(r);
  }

  lemma PortInRows(p: Parsers, rows: Rows, mode: Option<Mode>, s: Settings)
    requires p.blank("") && FieldsRead(p, rows, s, MailNeedsPort)
    ensures Breaks(s, ModeOf(mode), MailNeedsPort) <==> !Satisfied(p, rows, mode, MailNeedsPort)
  {
    var keys := RuleKeys(MailNeedsPort);
    assert keys[0] in keys && keys[1] in keys;
  }

  lemma SenderInRows(p: Parsers, rows: Rows, mode: Option<Mode>, s: Settings)
    requires p.blank("") && FieldsRead(p, rows, s, MailNeedsSender)
    ensures Breaks(s, ModeOf(mode), MailNeedsSender) <==> !Satisfied(p, rows, mode, MailNeedsSender)
  {
    var keys := RuleKeys(MailNeedsSender);
    assert keys[0] in keys && keys[1] in keys;
  }

  lemma LoginInRows(p: Parsers, rows: Rows, mode: Option<Mode>, s: Settings)
    requires p.blank("") && FieldsRead(p, rows, s, PasswordNeedsUsername)
    ensures Breaks(s, ModeOf(mode), PasswordNeedsUsername) <==> !Satisfied(p, rows, mode, PasswordNeedsUsername)
  {
    var keys := RuleKeys(PasswordNeedsUsername);
    assert keys[0] in keys && keys[1] in keys;
  }

  lemma VerifyInRows(p: Parsers, rows: Rows, mode: Option<Mode>, s: Settings)
    requires p.blank("") && FieldsRead(p, rows, s, VerifyNeedsMail)
    ensures Breaks(s, ModeOf(mode), VerifyNeedsMail) <==> !Satisfied(p, rows, mode, VerifyNeedsMail)
  {
    var keys := RuleKeys(VerifyNeedsMail);
    assert keys[0] in keys && keys[1] in keys;
  }

  lemma WebhookInRows(p: Parsers, rows: Rows, mode: Option<Mode>, s: Settings)
    requires p.blank("") && FieldsRead(p, rows, s, WebhookNeedsUrl)
    ensures Breaks(s, ModeOf(mode), WebhookNeedsUrl) <==> !Satisfied(p, rows, mode, WebhookNeedsUrl)
  {
    var keys := RuleKeys(WebhookNeedsUrl);
    assert keys[0] in keys && keys[1] in keys;
  }

  lemma TeamSizeInRows(p: Parsers, rows: Rows, mode: Option<Mode>, s: Settings)
    requires FieldsRead(p, rows, s, TeamSizeNeedsTeams) && Sane(p)
    ensures Breaks(s, ModeOf(mode), TeamSizeNeedsTeams) <==> !Satisfied(p, rows, mode, TeamSizeNeedsTeams)
  {
    assert RuleKeys(TeamSizeNeedsTeams)[0] == TeamSize && Field(s, TeamSize) == Count(s.caps.teamSize);
  }

  lemma RuleInRows(p: Parsers, rows: Rows, mode: Option<Mode>, r: Rule)
    requires Parses(p, rows, mode) && Sane(p)
    ensures Violated(p, rows, mode, r) <==> !Satisfied(p, rows, mode, r)
  {
    var s := SettingsOf(p, rows);
    RuleReads(p, rows, mode, r);
    match r {
      case EndAfterStart => ScheduleInRows(p, rows, mode, s, r);
      case FreezeNotBeforeStart => ScheduleInRows(p, rows, mode, s, r);
      case FreezeNotAfterEnd => ScheduleInRows(p, rows, mode, s, r);
      case TeamSizeNeedsTeams => TeamSizeInRows(p, rows, mode, s);
      case MailNeedsPort => PortInRows(p, rows, mode, s);
      case MailNeedsSender => SenderInRows(p, rows, mode, s);
      case PasswordNeedsUsername => LoginInRows(p, rows, mode, s);
      case VerifyNeedsMail => VerifyInRows(p, rows, mode, s);
      case WebhookNeedsUrl => WebhookInRows(p, rows, mode, s);
    }
  }

  /**
   * A table boots exactly when every row parses and the stored strings agree with each other, rule by
   * rule: what an operator can read off the table without loading it.
   */
  lemma BootableIff(p: Parsers, rows: Rows, mode: Option<Mode>)
    requires Sane(p)
    ensures Bootable(p, rows, mode) <==> Parses(p, rows, mode) && forall r :: Satisfied(p, rows, mode, r)
  {
    if Parses(p, rows, mode) {
      forall r { RuleInRows(p, rows, mode, r); }
    }
  }

  /** And so it does under the parsers the code uses. */
  lemma SourceBootableIff(email: string -> bool, url: string -> bool, tokens: string -> bool, rows: Rows, mode: Option<Mode>)
    ensures var p := Source(email, url, tokens);
            Bootable(p, rows, mode) <==> Parses(p, rows, mode) && forall r :: Satisfied(p, rows, mode, r)
  {
    SourceReads(email, url, tokens);
    BootableIff(Source(email, url, tokens), rows, mode);
  }

  // A run of writes, each stored or refused.
  ghost function Writes(p: Parsers, rows: Rows, mode: Option<Mode>, kvs: seq<Rows>): Rows
    decreases |kvs|
  {
    if kvs == [] then rows else Writes(p, AfterWrite(p, rows, mode, kvs[0]), mode, kvs[1..])
  }

  ghost function AfterWrite(p: Parsers, rows: Rows, mode: Option<Mode>, kv: Rows): Rows {
    if Judge(p, rows, kv, mode) == Stored then rows + kv else rows
  }

  /** Every run of writes from a table that boots leaves a table that boots. */
  lemma {:induction false} WritesKeepBootable(p: Parsers, rows: Rows, mode: Option<Mode>, kvs: seq<Rows>)
    requires Bootable(p, rows, mode)
    ensures Bootable(p, Writes(p, rows, mode, kvs), mode)
    decreases |kvs|
  {
    if kvs != [] {
      if Judge(p, rows, kvs[0], mode) == Stored {
        forall r ensures !Violated(p, rows + kvs[0], mode, r) {
          if Violated(p, rows + kvs[0], mode, r) { StoredBreaksNothing(p, rows, kvs[0], mode, r); }
        }
        WritesKeepBootable(p, rows + kvs[0], mode, kvs[1..]);
      } else {
        WritesKeepBootable(p, rows, mode, kvs[1..]);
      }
    }
  }

  /** A refusal is repairable key by key: a broken rule goes away by writing its keys so that they agree. */
  lemma RepairIsAccepted(p: Parsers, current: Rows, kv: Rows, mode: Option<Mode>)
    requires Parses(p, current, mode) && Parses(p, current + kv, mode) && !WritesWithdrawn(p, kv)
    requires forall r :: TouchesAny(r, kv) ==> !Violated(p, current + kv, mode, r)
    ensures Judge(p, current, kv, mode) == Stored
  {
    BackstopUnreachable(p, current, kv, mode);
  }

  // ── the manager ─────────────────────────────────────────────────────────────

  function Broken(s: Snapshot, rules: seq<Rule>): seq<Rule> {
    if rules == [] then []
    else
      var before, r := Broken(s, rules[..|rules| - 1]), rules[|rules| - 1];
      if Breaks(s.settings, s.mode, r) then before + [r] else before
  }

  lemma {:induction false} BrokenMembers(s: Snapshot, rules: seq<Rule>, r: Rule)
    ensures r in Broken(s, rules) <==> r in rules && Breaks(s.settings, s.mode, r)
  {
    if rules != [] {
      BrokenMembers(s, rules[..|rules| - 1], r);
      assert rules == rules[..|rules| - 1] + [rules[|rules| - 1]];
    }
  }

  // What the rules say of a loaded snapshot is what they say of its table.
  lemma {:induction false} BrokenIsViolated(p: Parsers, rows: Rows, mode: Option<Mode>, s: Snapshot, r: Rule)
    requires IsSnapshot(p, rows, mode, s)
    ensures r in Broken(s, RULES) <==> Violated(p, rows, mode, r)
  {
    BrokenMembers(s, RULES, r);
    SnapshotSettings(p, rows, mode, s);
  }

  method Violations(s: Snapshot) returns (out: seq<Rule>)
    ensures out == Broken(s, RULES)
  {
    out := [];
    for i := 0 to |RULES|
      invariant out == Broken(s, RULES[..i])
    {
      assert RULES[..i + 1][..i] == RULES[..i];
      if Breaks(s.settings, s.mode, RULES[i]) { out := out + [RULES[i]]; }
    }
    assert RULES[..|RULES|] == RULES;
  }

  method RefuseWithdrawn(p: Parsers, kv: Rows) returns (refused: bool)
    ensures refused == WritesWithdrawn(p, kv)
  {
    refused := false;
    var left := kv.Keys;
    while left != {}
      invariant left <= kv.Keys
      invariant refused <==> RegistrationVisibility in kv.Keys - left && WritesWithdrawn(p, kv)
    {
      var k :| k in left;
      left := left - {k};
      if k != RegistrationVisibility { continue; } // no other key has withdrawn values
      if p.withdrawn(kv[k]) { refused := true; }
    }
  }

  method TouchesAnyKey(keys: seq<Key>, kv: Rows) returns (touches: bool)
    ensures touches <==> exists i :: 0 <= i < |keys| && keys[i] in kv
  {
    for i := 0 to |keys|
      invariant forall j :: 0 <= j < i ==> keys[j] !in kv
    {
      if keys[i] in kv { return true; }
    }
    touches := false;
  }

  // The rules the stored table breaks already; a table that does not parse is taken to break none.
  method BrokenBefore(p: Parsers, current: Rows, mode: Option<Mode>) returns (before: seq<Rule>)
    ensures forall r :: r in before <==> Parses(p, current, mode) && Violated(p, current, mode, r)
  {
    before := [];
    var snap := BuildParsed(p, current, mode);
    if snap.Ok? {
      forall r { BrokenIsViolated(p, current, mode, snap.value, r); }
      before := Violations(snap.value);
    }
  }

  ghost function JudgeRules(p: Parsers, current: Rows, kv: Rows, mode: Option<Mode>): Verdict {
    if exists r :: NewlyBroken(p, current, kv, mode, r) then UnderDeclared
    else if exists r :: Violated(p, current + kv, mode, r) && TouchesAny(r, kv) then Incoherent
    else Stored
  }

  method CheckCoherence(p: Parsers, merged: Snapshot, current: Rows, kv: Rows, mode: Option<Mode>) returns (v: Verdict)
    requires IsSnapshot(p, current + kv, mode, merged)
    ensures v == JudgeRules(p, current, kv, mode)
  {
    forall r { BrokenIsViolated(p, current + kv, mode, merged, r); }
    var violated := Violations(merged);
    if violated == [] { return Stored; }
    var before := BrokenBefore(p, current, mode);
    v := JudgeEach(kv, violated, before);
    BackstopInLists(p, current, kv, mode, violated, before);
    TouchedInList(p, current + kv, kv, mode, violated);
  }

  // The same judgement over the two lists the code has.
  function JudgeLists(kv: Rows, violated: seq<Rule>, before: seq<Rule>): Verdict {
    if exists i :: 0 <= i < |violated| && !TouchesAny(violated[i], kv) && violated[i] !in before then UnderDeclared
    else if exists i :: 0 <= i < |violated| && TouchesAny(violated[i], kv) then Incoherent
    else Stored
  }

  lemma NewlyBrokenInLists(p: Parsers, current: Rows, kv: Rows, mode: Option<Mode>, violated: seq<Rule>, before: seq<Rule>, r: Rule)
    requires r in violated <==> Violated(p, current + kv, mode, r)
    requires r in before <==> Parses(p, current, mode) && Violated(p, current, mode, r)
    ensures NewlyBroken(p, current, kv, mode, r) <==> r in violated && !TouchesAny(r, kv) && r !in before
  {
  }

  lemma BackstopInLists(p: Parsers, current: Rows, kv: Rows, mode: Option<Mode>, violated: seq<Rule>, before: seq<Rule>)
    requires forall r :: r in violated <==> Violated(p, current + kv, mode, r)
    requires forall r :: r in before <==> Parses(p, current, mode) && Violated(p, current, mode, r)
    ensures (exists i :: 0 <= i < |violated| && !TouchesAny(violated[i], kv) && violated[i] !in before)
       <==> exists r :: NewlyBroken(p, current, kv, mode, r)
  {
    forall r { NewlyBrokenInLists(p, current, kv, mode, violated, before, r); }
    if r :| NewlyBroken(p, current, kv, mode, r) {
      var j :| 0 <= j < |violated| && violated[j] == r;
    }
    if i :| 0 <= i < |violated| && !TouchesAny(violated[i], kv) && violated[i] !in before {
      assert violated[i] in violated;
    }
  }

  lemma TouchedInList(p: Parsers, rows: Rows, kv: Rows, mode: Option<Mode>, violated: seq<Rule>)
    requires forall r :: r in violated <==> Violated(p, rows, mode, r)
    ensures (exists i :: 0 <= i < |violated| && TouchesAny(violated[i], kv))
       <==> exists r :: Violated(p, rows, mode, r) && TouchesAny(r, kv)
  {
    if r :| Violated(p, rows, mode, r) && TouchesAny(r, kv) {
      var j :| 0 <= j < |violated| && violated[j] == r;
    }
    if i :| 0 <= i < |violated| && TouchesAny(violated[i], kv) {
      assert violated[i] in violated;
    }
  }

  method JudgeEach(kv: Rows, violated: seq<Rule>, before: seq<Rule>) returns (v: Verdict)
    ensures v == JudgeLists(kv, violated, before)
  {
    var refused := false;
    for i := 0 to |violated|
      invariant forall j :: 0 <= j < i ==> TouchesAny(violated[j], kv) || violated[j] in before
      invariant refused <==> exists j :: 0 <= j < i && TouchesAny(violated[j], kv)
    {
      var touches := TouchesAnyKey(RuleKeys(violated[i]), kv);
      if touches {
        refused := true;
      } else if violated[i] !in before {
        return UnderDeclared;
      }
    }
    v := if refused then Incoherent else Stored;
  }

  class Manager {
    const p: Parsers
    const mode: Option<Mode>
    // The stored table, which other processes may write too.
    var table: Rows
    var snap: Snapshot
    var problems: seq<Rule>

    /** The snapshot served carries exactly the problems shown. */
    ghost predicate Valid()
      reads this
    {
      problems == Broken(snap, RULES)
    }

    constructor (p: Parsers, mode: Option<Mode>, table: Rows)
      ensures this.p == p && this.mode == mode && this.table == table
      ensures Valid()
    {
      this.p, this.mode, this.table := p, mode, table;
      snap := Snapshot(Defaults(), ModeOf(mode), map[], []);
      problems := Broken(Snapshot(Defaults(), ModeOf(mode), map[], []), RULES);
    }

    /** Re-reads the table; on a parse error the old snapshot and its problems are kept. */
    method Refresh() returns (ok: bool)
      requires Valid()
      modifies this`snap, this`problems
      ensures Valid()
      ensures ok == Parses(p, table, mode)
      ensures ok ==> IsSnapshot(p, table, mode, snap) && forall r :: r in problems <==> Violated(p, table, mode, r)
      ensures !ok ==> snap == old(snap) && problems == old(problems)
    {
      var parsed := BuildParsed(p, table, mode);
      if parsed.Err? { return false; }
      snap := parsed.value;
      problems := Violations(snap);
      forall r { BrokenIsViolated(p, table, mode, snap, r); }
      ok := true;
    }

    /** Boots exactly on the tables that parse and break no rule. */
    static method New(p: Parsers, mode: Option<Mode>, table: Rows) returns (m: Manager?)
      ensures m != null <==> Bootable(p, table, mode)
      ensures m != null ==> && fresh(m) && m.Valid() && m.p == p && m.mode == mode && m.table == table
                            && IsSnapshot(p, table, mode, m.snap) && m.problems == []
    {
      m := new Manager(p, mode, table);
      var ok := m.Refresh();
      if !ok { return null; }
      if m.problems != [] {
        assert m.problems[0] in m.problems;
        return null;
      }
    }

    /**
     * Stores the write exactly when it is judged sound. A stored write is what the next read sees, with
     * every other key untouched; a refused one changes neither the table nor what is served.
     */
    method Set(kv: Rows) returns (v: Verdict)
      requires Valid()
      modifies this`table, this`snap, this`problems
      ensures Valid()
      ensures v == Judge(p, old(table), kv, mode)
      ensures v == Stored ==>
                && (forall k :: k in kv ==> k in table && table[k] == kv[k])
                && (forall k :: k !in kv ==> (k in table <==> k in old(table)) && (k in table ==> table[k] == old(table)[k]))
                && IsSnapshot(p, table, mode, snap)
                && (forall r :: r in problems <==> Violated(p, table, mode, r))
      ensures v != Stored ==> table == old(table) && snap == old(snap) && problems == old(problems)
    {
      var withdrawn := RefuseWithdrawn(p, kv);
      if withdrawn { return Withdrawn; }
      var current := table;
      var merged := current + kv;
      var parsed := BuildParsed(p, merged, mode);
      if parsed.Err? { return Unparsable; }
      v := CheckCoherence(p, parsed.value, current, kv, mode);
      if v != Stored { return; }
      table := table + kv;
      var _ := Refresh();
    }

    /** A write by someone else: it lands in the table and is not served until a refresh. */
    method Replace(kv: Rows)
      requires Valid()
      modifies this`table
      ensures Valid() && table == old(table) + kv
    {
      table := table + kv;
    }
  }

  // Some stored write of the run names the key.
  ghost predicate StoresKey(p: Parsers, rows: Rows, mode: Option<Mode>, kvs: seq<Rows>, k: Key)
    decreases |kvs|
  {
    kvs != [] &&
    ((Judge(p, rows, kvs[0], mode) == Stored && k in kvs[0]) || StoresKey(p, AfterWrite(p, rows, mode, kvs[0]), mode, kvs[1..], k))
  }

  // A value read as the withdrawn visibility is refused when written.
  ghost predicate RefusesMlc(p: Parsers) { forall v :: p.vis(v) == Some(Mlc) ==> p.withdrawn(v) }

  lemma {:induction false} RepairAfterWrites(p: Parsers, rows: Rows, mode: Option<Mode>, kvs: seq<Rows>)
    requires RefusesMlc(p)
    ensures Repaired(p, Writes(p, rows, mode, kvs))
       <==> Repaired(p, rows) && !StoresKey(p, rows, mode, kvs, RegistrationVisibility)
    decreases |kvs|
  {
    if kvs != [] {
      RepairAfterWrites(p, AfterWrite(p, rows, mode, kvs[0]), mode, kvs[1..]);
    }
  }

  /**
   * The withdrawn visibility cannot be written: a table needs the repair after a run of writes exactly when
   * it needed it before and no stored write named the key.
   */
  lemma {:induction false} WrittenRegistrationNeedsNoRepair(p: Parsers, email: string -> bool, url: string -> bool, tokens: string -> bool,
                                                            rows: Rows, mode: Option<Mode>, kvs: seq<Rows>)
    requires p == Source(email, url, tokens)
    ensures Repaired(p, Writes(p, rows, mode, kvs))
       <==> Repaired(p, rows) && !StoresKey(p, rows, mode, kvs, RegistrationVisibility)
  {
    RepairAfterWrites(p, rows, mode, kvs);
  }
}
