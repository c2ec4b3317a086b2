/** The runtime snapshot and its scoped refresh (internal/runtime/snapshot.go). */
module Snapshots {
  import opened Candidates
  import opened Rules

  type Scope = bv8

  const SYSTEM_CONFIG: Scope := 1
  const SONARR_RULES: Scope := 2
  const SONARR_TITLES: Scope := 4
  const RADARR_RULES: Scope := 8
  const RADARR_TITLES: Scope := 16
  const ALL_SCOPES: Scope := 31

  datatype Title = Title(mainTitle: string, title: string, cleanTitle: string, number: int)

  /** Formatter configuration of one kind of client. */
  datatype Config = Config(format: string, cleanTitleRegex: string, rules: seq<Rule>, titles: seq<Title>)

  datatype Account = Account(url: string, username: string, password: string)

  /** What the database yields in one load. */
  datatype Source = Source(
    radarr: Config, sonarr: Config,
    radarrCandidates: seq<Candidate>, sonarrCandidates: seq<Candidate>,
    jackettUrl: string, prowlarrUrl: string,
    qbittorrent: Account, transmission: Account)

  datatype Revisions = Revisions(qbittorrent: nat, transmission: nat, radarr: nat, sonarr: nat, radarrSearch: nat,
                                 sonarrSearch: nat)

  /** The published value: content and the revisions that stand for it. */
  datatype Snapshot = Snapshot(content: Source, rev: Revisions)

  predicate Has(scopes: Scope, mask: Scope) {
    scopes & mask != 0
  }

  function WithSystemConfig(next: Snapshot, source: Source): Snapshot {
    var c := next.content;
    Snapshot(
      c.(radarr := c.radarr.(format := source.radarr.format, cleanTitleRegex := source.radarr.cleanTitleRegex),
         sonarr := c.sonarr.(format := source.sonarr.format, cleanTitleRegex := source.sonarr.cleanTitleRegex),
         jackettUrl := source.jackettUrl, prowlarrUrl := source.prowlarrUrl,
         qbittorrent := source.qbittorrent, transmission := source.transmission),
      next.rev.(qbittorrent := next.rev.qbittorrent + 1, transmission := next.rev.transmission + 1,
                radarr := next.rev.radarr + 1, sonarr := next.rev.sonarr + 1))
  }

  /** `snapshotFromSQLite`: the parts named by `scopes` come from `source`, the others stay. */
  function FromSource(source: Source, previous: Snapshot, scopes: Scope): Snapshot {
    var next := previous;
    var next :=
      if scopes == ALL_SCOPES then
        next.(content := next.content.(radarr := source.radarr, sonarr := source.sonarr,
                                       radarrCandidates := source.radarrCandidates,
                                       sonarrCandidates := source.sonarrCandidates))
      else next;
    var next := if Has(scopes, SYSTEM_CONFIG) then WithSystemConfig(next, source) else next;
    var next := if Has(scopes, RADARR_RULES | RADARR_TITLES)
                then next.(rev := next.rev.(radarr := next.rev.radarr + 1)) else next;
    var next :=
      if Has(scopes, RADARR_RULES)
      then next.(content := next.content.(radarr := next.content.radarr.(rules := source.radarr.rules)))
      else next;
    var next :=
      if Has(scopes, RADARR_TITLES) then
        next.(content := next.content.(radarr := next.content.radarr.(titles := source.radarr.titles),
                                       radarrCandidates := source.radarrCandidates))
      else next;
    var next := if Has(scopes, SONARR_RULES | SONARR_TITLES)
                then next.(rev := next.rev.(sonarr := next.rev.sonarr + 1)) else next;
    var next :=
      if Has(scopes, SONARR_RULES)
      then next.(content := next.content.(sonarr := next.content.sonarr.(rules := source.sonarr.rules)))
      else next;
    var next :=
      if Has(scopes, SONARR_TITLES) then
        next.(content := next.content.(sonarr := next.content.sonarr.(titles := source.sonarr.titles),
                                       sonarrCandidates := source.sonarrCandidates))
      else next;
    var next := if Has(scopes, RADARR_TITLES) then next.(rev := next.rev.(radarrSearch := next.rev.radarrSearch + 1))
                else next;
    if Has(scopes, SONARR_TITLES) then next.(rev := next.rev.(sonarrSearch := next.rev.sonarrSearch + 1)) else next
  }

  // ----- The five parts of the content -----

  /** What the system configuration determines. */
  datatype Settings = Settings(radarrFormat: string, radarrClean: string, sonarrFormat: string, sonarrClean: string,
                               jackettUrl: string, prowlarrUrl: string, qbittorrent: Account, transmission: Account)

  function SettingsOf(c: Source): Settings {
    Settings(c.radarr.format, c.radarr.cleanTitleRegex, c.sonarr.format, c.sonarr.cleanTitleRegex,
             c.jackettUrl, c.prowlarrUrl, c.qbittorrent, c.transmission)
  }

  function RadarrTitlesOf(c: Source): (seq<Title>, seq<Candidate>) {
    (c.radarr.titles, c.radarrCandidates)
  }

  function SonarrTitlesOf(c: Source): (seq<Title>, seq<Candidate>) {
    (c.sonarr.titles, c.sonarrCandidates)
  }

  lemma PartsMakeTheWhole(a: Source, b: Source)
    requires SettingsOf(a) == SettingsOf(b) && RadarrTitlesOf(a) == RadarrTitlesOf(b) &&
      SonarrTitlesOf(a) == SonarrTitlesOf(b)
    requires a.radarr.rules == b.radarr.rules && a.sonarr.rules == b.sonarr.rules
    ensures a == b
  {
  }

  /** Of the five parts `after` has those named by the scopes from `source` and the others from `before`. */
  ghost predicate TakesScopes(source: Source, before: Source, after: Source, scopes: Scope) {
    && SettingsOf(after) == SettingsOf(if Has(scopes, SYSTEM_CONFIG) then source else before)
    && after.radarr.rules == (if Has(scopes, RADARR_RULES) then source else before).radarr.rules
    && RadarrTitlesOf(after) == RadarrTitlesOf(if Has(scopes, RADARR_TITLES) then source else before)
    && after.sonarr.rules == (if Has(scopes, SONARR_RULES) then source else before).sonarr.rules
    && SonarrTitlesOf(after) == SonarrTitlesOf(if Has(scopes, SONARR_TITLES) then source else before)
  }

  /** Whatever the mask, each part is taken from the source exactly when its own bit is
      set: the branch for all scopes adds nothing. */
  lemma PartsByScope(source: Source, previous: Snapshot, scopes: Scope)
    ensures TakesScopes(source, previous.content, FromSource(source, previous, scopes).content, scopes)
  {
    AllHasEach();
  }

  lemma AllHasEach()
    ensures Has(ALL_SCOPES, SYSTEM_CONFIG) && Has(ALL_SCOPES, RADARR_RULES) && Has(ALL_SCOPES, RADARR_TITLES)
    ensures Has(ALL_SCOPES, SONARR_RULES) && Has(ALL_SCOPES, SONARR_TITLES)
  {
  }

  lemma HasUnion(a: Scope, b: Scope, mask: Scope)
    ensures Has(a | b, mask) <==> Has(a, mask) || Has(b, mask)
    ensures Has(mask, a | b) <==> Has(mask, a) || Has(mask, b)
  {
  }

  /** Refreshing two sets of scopes one after the other from one source leaves the same
      content as refreshing them together. */
  lemma RefreshesCompose(source: Source, previous: Snapshot, a: Scope, b: Scope)
    ensures FromSource(source, FromSource(source, previous, a), b).content
         == FromSource(source, previous, a | b).content
  {
    var first := FromSource(source, previous, a);
    PartsByScope(source, previous, a);
    PartsByScope(source, first, b);
    PartsByScope(source, previous, a | b);
    HasUnion(a, b, SYSTEM_CONFIG);
    HasUnion(a, b, RADARR_RULES);
    HasUnion(a, b, RADARR_TITLES);
    HasUnion(a, b, SONARR_RULES);
    HasUnion(a, b, SONARR_TITLES);
    PartsMakeTheWhole(FromSource(source, first, b).content, FromSource(source, previous, a | b).content);
  }

  // ----- Revisions stand for content -----

  /** `kindRevision` and `kindSearchRevision`. */
  function RevisionOf(kind: Kind, s: Snapshot): nat {
    if kind == Radarr then s.rev.radarr else s.rev.sonarr
  }

  function SearchRevisionOf(kind: Kind, s: Snapshot): nat {
    if kind == Radarr then s.rev.radarrSearch else s.rev.sonarrSearch
  }

  function CandidatesOf(kind: Kind, s: Snapshot): seq<Candidate> {
    if kind == Radarr then s.content.radarrCandidates else s.content.sonarrCandidates
  }

  /** All a result depends on besides the request: formatter configuration, search
      candidates and the two indexer addresses. */
  datatype Inputs = Inputs(config: Config, candidates: seq<Candidate>, jackettUrl: string, prowlarrUrl: string)

  function InputsOf(kind: Kind, s: Snapshot): Inputs {
    var formatting := if kind == Radarr then s.content.radarr else s.content.sonarr;
    Inputs(formatting, CandidatesOf(kind, s), s.content.jackettUrl, s.content.prowlarrUrl)
  }

  /** A refresh never lowers a revision, and one that leaves it alone leaves alone what it stands for. */
  lemma RevisionsGuardContent(source: Source, previous: Snapshot, scopes: Scope, kind: Kind)
    ensures var next := FromSource(source, previous, scopes);
      && RevisionOf(kind, next) >= RevisionOf(kind, previous)
      && SearchRevisionOf(kind, next) >= SearchRevisionOf(kind, previous)
      && next.rev.qbittorrent >= previous.rev.qbittorrent && next.rev.transmission >= previous.rev.transmission
      && (RevisionOf(kind, next) == RevisionOf(kind, previous) ==> InputsOf(kind, next) == InputsOf(kind, previous))
      && (SearchRevisionOf(kind, next) == SearchRevisionOf(kind, previous) ==>
          CandidatesOf(kind, next) == CandidatesOf(kind, previous))
      && (next.rev.qbittorrent == previous.rev.qbittorrent ==> next.content.qbittorrent == previous.content.qbittorrent)
      && (next.rev.transmission == previous.rev.transmission ==>
          next.content.transmission == previous.content.transmission)
  {
    AllHasEach();
    HasUnion(RADARR_RULES, RADARR_TITLES, scopes);
    HasUnion(SONARR_RULES, SONARR_TITLES, scopes);
  }

  function RulesScope(kind: Kind): Scope {
    if kind == Radarr then RADARR_RULES else SONARR_RULES
  }

  function TitlesScope(kind: Kind): Scope {
    if kind == Radarr then RADARR_TITLES else SONARR_TITLES
  }

  /** When each revision moves, and by how much: those of the downloaders with the system
      configuration, that of a kind once for the system configuration and once for its rules or
      titles, its search revision with its titles. Other scopes leave a revision alone. */
  lemma RevisionsMoveExactly(source: Source, previous: Snapshot, scopes: Scope, kind: Kind)
    ensures var next := FromSource(source, previous, scopes);
      var system := if Has(scopes, SYSTEM_CONFIG) then 1 else 0;
      && next.rev.qbittorrent == previous.rev.qbittorrent + system
      && next.rev.transmission == previous.rev.transmission + system
      && RevisionOf(kind, next) == RevisionOf(kind, previous) + system
           + (if Has(scopes, RulesScope(kind)) || Has(scopes, TitlesScope(kind)) then 1 else 0)
      && SearchRevisionOf(kind, next)
         == SearchRevisionOf(kind, previous) + (if Has(scopes, TitlesScope(kind)) then 1 else 0)
  {
    HasUnion(RADARR_RULES, RADARR_TITLES, scopes);
    HasUnion(SONARR_RULES, SONARR_TITLES, scopes);
  }
}
