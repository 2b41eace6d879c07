/**
 * The configuration of model profiles: a legacy single-model form and a
 * multi-profile form are normalised into one state that never holds a secret,
 * only the names of environment variables.
 */
module LlmConfig {
  import opened Options

  const DEFAULT_ID := "default"
  const MAX_TOKENS := 32768
  const MAX_TIMEOUT := 300.0
  const MAX_PROFILES := 32

  /** A configured value; lists and objects where a scalar belongs are `Structure`. */
  datatype Scalar = Null | Bool(b: bool) | Int(i: int) | Num(r: real) | Str(s: string) | Structure

  /** The nine fields that describe a model, each possibly absent. */
  datatype RawModel = RawModel(provider: Option<Scalar>, model: Option<Scalar>, apiKeyEnv: Option<Scalar>, baseUrlEnv: Option<Scalar>,
                               optionsEnv: Option<Scalar>, method_: Option<Scalar>, temperature: Option<Scalar>,
                               maxTokens: Option<Scalar>, timeout: Option<Scalar>)

  datatype RawProfile = RawProfile(id: Option<Scalar>, fields: RawModel, unknownFields: bool)

  datatype ProfileItem = Mapping(profile: RawProfile) | NotMapping

  datatype ProfilesValue = Sequence(items: seq<ProfileItem>) | NotSequence

  /** Routes keep the order in which they are written. */
  datatype RoutesValue = RouteMap(entries: seq<(string, Scalar)>) | NullRoutes | NotRoutes

  datatype RawConfig = RawConfig(enabled: Option<Scalar>, fallback: Option<Scalar>, fields: RawModel, profiles: Option<ProfilesValue>,
                                 defaultId: Option<Scalar>, routes: Option<RoutesValue>, unknownFields: bool)

  /** Trimming, case folding and the tables of the configuration protocol. */
  datatype Rules = Rules(strip: string -> string, fold: string -> string, tables: Tables)

  datatype Tables = Tables(supported: set<string>, aliases: map<string, string>, keyDefaults: map<string, string>,
                           urlDefaults: map<string, string>, needKey: set<string>, needUrl: set<string>,
                           methods: set<string>, tasks: seq<string>, mock: string, defaultModel: string, auto: string)

  /** Trimming is idempotent and leaves clean names alone; folding leaves the protocol's own names alone. */
  ghost predicate Lawful(t: Rules) {
    && (forall s :: t.strip(t.strip(s)) == t.strip(s))
    && (forall s | IsProfileId(s) || IsEnvironmentName(s) :: t.strip(s) == s)
    && (forall s | s in t.tables.supported || s in t.tables.methods || s in t.tables.tasks :: t.strip(s) == s && t.fold(s) == s)
    && "" !in t.tables.supported && "" !in t.tables.methods && "" !in t.tables.tasks
    && t.tables.supported !! t.tables.aliases.Keys
  }

  // ----- Scalars -----

  predicate Letter(c: char) { 'A' <= c <= 'Z' || 'a' <= c <= 'z' }

  predicate Digit(c: char) { '0' <= c <= '9' }

  predicate IsProfileId(s: string) {
    && 1 <= |s| <= 64 && (Letter(s[0]) || Digit(s[0]))
    && forall i | 1 <= i < |s| :: Letter(s[i]) || Digit(s[i]) || s[i] == '.' || s[i] == '_' || s[i] == '-'
  }

  predicate IsEnvironmentName(s: string) {
    s != "" && (Letter(s[0]) || s[0] == '_') && forall i | 1 <= i < |s| :: Letter(s[i]) || Digit(s[i]) || s[i] == '_'
  }

  function Or(v: Option<Scalar>, standard: Scalar): Scalar {
    if v.Some? then v.value else standard
  }

  function RequiredText(t: Rules, v: Scalar): Result<string> {
    if !v.Str? then Err(TypeError) else if t.strip(v.s) == "" then Err(ValueError) else Ok(t.strip(v.s))
  }

  function ProfileId(t: Rules, v: Scalar): Result<string> {
    var id :- RequiredText(t, v);
    if IsProfileId(id) then Ok(id) else Err(ValueError)
  }

  function EnvironmentName(t: Rules, v: Scalar): Result<Option<string>> {
    if v.Null? then Ok(None)
    else
      var name :- RequiredText(t, v);
      if IsEnvironmentName(name) then Ok(Some(name)) else Err(ValueError)
  }

  function Number(v: Scalar): Result<real> {
    match v case Int(i) => Ok(i as real) case Num(r) => Ok(r) case _ => Err(TypeError)
  }

  function Temperature(v: Scalar): Result<real> {
    var r :- Number(v);
    if 0.0 <= r <= 2.0 then Ok(r) else Err(ValueError)
  }

  function Timeout(v: Scalar): Result<real> {
    var r :- Number(v);
    if 0.0 < r <= MAX_TIMEOUT then Ok(r) else Err(ValueError)
  }

  function Tokens(v: Scalar): Result<nat> {
    if !v.Int? then Err(TypeError) else if 0 < v.i <= MAX_TOKENS then Ok(v.i) else Err(ValueError)
  }

  function Method(t: Rules, v: Scalar): Result<string> {
    var text :- RequiredText(t, v);
    if t.fold(text) in t.tables.methods then Ok(t.fold(text)) else Err(ValueError)
  }

  function Unaliased(t: Rules, name: string): string {
    if name in t.tables.aliases then t.tables.aliases[name] else name
  }

  function Provider(t: Rules, v: Scalar): Result<string> {
    var text :- RequiredText(t, v);
    var name := Unaliased(t, t.fold(text));
    if name in t.tables.supported then Ok(name) else Err(ValueError)
  }

  // ----- One profile -----

  datatype Profile = Profile(id: string, provider: string, model: string, apiKeyEnv: Option<string>, baseUrlEnv: Option<string>,
                             optionsEnv: Option<string>, method_: string, temperature: real, maxTokens: nat, timeout: real)

  function Optional(name: Option<string>): Scalar {
    if name.Some? then Str(name.value) else Null
  }

  function StandardName(defaults: map<string, string>, provider: string): Scalar {
    if provider in defaults then Str(defaults[provider]) else Null
  }

  /** What a provider demands of the other fields. */
  predicate Consistent(t: Rules, provider: string, apiKeyEnv: Option<string>, baseUrlEnv: Option<string>,
                       optionsEnv: Option<string>, method_: string) {
    && (provider in t.tables.needKey ==> apiKeyEnv.Some?)
    && (provider in t.tables.needUrl ==> baseUrlEnv.Some?)
    && (provider == t.tables.mock ==> apiKeyEnv.None? && baseUrlEnv.None? && optionsEnv.None? && method_ == t.tables.auto)
  }

  function CreateProfile(t: Rules, raw: RawProfile): Result<Profile> {
    if raw.unknownFields then Err(ValueError)
    else
      var m := raw.fields;
      var id :- ProfileId(t, Or(raw.id, Null));
      var provider :- Provider(t, Or(m.provider, Str(t.tables.mock)));
      var model :- RequiredText(t, Or(m.model, Str(if provider == t.tables.mock then t.tables.defaultModel else "")));
      var apiKeyEnv :- EnvironmentName(t, Or(m.apiKeyEnv, StandardName(t.tables.keyDefaults, provider)));
      var baseUrlEnv :- EnvironmentName(t, Or(m.baseUrlEnv, StandardName(t.tables.urlDefaults, provider)));
      var optionsEnv :- EnvironmentName(t, Or(m.optionsEnv, Null));
      var method_ :- Method(t, Or(m.method_, Str(t.tables.auto)));
      if !Consistent(t, provider, apiKeyEnv, baseUrlEnv, optionsEnv, method_) then Err(ValueError)
      else
        var temperature :- Temperature(Or(m.temperature, Num(0.0)));
        var maxTokens :- Tokens(Or(m.maxTokens, Int(800)));
        var timeout :- Timeout(Or(m.timeout, Num(30.0)));
        Ok(Profile(id, provider, model, apiKeyEnv, baseUrlEnv, optionsEnv, method_, temperature, maxTokens, timeout))
  }

  /** A profile's model fields written out as configuration; a state carries those of its default profile for older readers. */
  function Mirror(p: Profile): RawModel {
    RawModel(Some(Str(p.provider)), Some(Str(p.model)), Some(Optional(p.apiKeyEnv)), Some(Optional(p.baseUrlEnv)),
             Some(Optional(p.optionsEnv)), Some(Str(p.method_)), Some(Num(p.temperature)), Some(Int(p.maxTokens)), Some(Num(p.timeout)))
  }

  function Written(p: Profile): RawProfile {
    RawProfile(Some(Str(p.id)), Mirror(p), false)
  }

  /** What every accepted profile satisfies. */
  ghost predicate ProperProfile(t: Rules, p: Profile) {
    && IsProfileId(p.id) && p.provider in t.tables.supported && p.model != "" && t.strip(p.model) == p.model
    && (p.apiKeyEnv.Some? ==> IsEnvironmentName(p.apiKeyEnv.value))
    && (p.baseUrlEnv.Some? ==> IsEnvironmentName(p.baseUrlEnv.value))
    && (p.optionsEnv.Some? ==> IsEnvironmentName(p.optionsEnv.value))
    && p.method_ in t.tables.methods && Consistent(t, p.provider, p.apiKeyEnv, p.baseUrlEnv, p.optionsEnv, p.method_)
    && 0.0 <= p.temperature <= 2.0 && 0 < p.maxTokens <= MAX_TOKENS && 0.0 < p.timeout <= MAX_TIMEOUT
  }

  lemma AcceptedProfileIsProper(t: Rules, raw: RawProfile)
    requires Lawful(t) && CreateProfile(t, raw).Ok?
    ensures ProperProfile(t, CreateProfile(t, raw).value)
  {
  }

  /** Written out and read back, a profile is the same. */
  lemma ProfileIsFixed(t: Rules, p: Profile)
    requires Lawful(t) && ProperProfile(t, p)
    ensures CreateProfile(t, Written(p)) == Ok(p)
  {
    assert p.provider !in t.tables.aliases.Keys;
    assert ProfileId(t, Str(p.id)) == Ok(p.id);
    assert Provider(t, Str(p.provider)) == Ok(p.provider);
    assert Method(t, Str(p.method_)) == Ok(p.method_);
  }

  // ----- The list of profiles -----

  function Ids(profiles: seq<Profile>): set<string> {
    set p | p in profiles :: p.id
  }

  type Creator = RawProfile -> Result<Profile>

  function Creating(t: Rules): Creator {
    (raw: RawProfile) => CreateProfile(t, raw)
  }

  /** One more item after the profiles accepted so far. */
  function ReadItem(create: Creator, before: seq<Profile>, item: ProfileItem): Result<seq<Profile>> {
    if item.NotMapping? then Err(TypeError)
    else
      var p :- create(item.profile);
      if p.id in Ids(before) then Err(ValueError) else Ok(before + [p])
  }

  /** Items in order, each an accepted profile with an identifier not seen before. */
  function ReadItems(create: Creator, items: seq<ProfileItem>): (r: Result<seq<Profile>>)
    ensures r.Ok? ==> |r.value| == |items|
  {
    if items == [] then Ok([])
    else
      var before :- ReadItems(create, items[..|items| - 1]);
      ReadItem(create, before, items[|items| - 1])
  }

  function ReadProfiles(create: Creator, v: ProfilesValue): (r: Result<seq<Profile>>)
    ensures r.Ok? ==> r.value != []
  {
    if v.NotSequence? then Err(TypeError)
    else if |v.items| == 0 || |v.items| > MAX_PROFILES then Err(ValueError)
    else ReadItems(create, v.items)
  }

  method NormalizeProfiles(create: Creator, v: ProfilesValue) returns (r: Result<seq<Profile>>)
    ensures r == ReadProfiles(create, v)
  {
    if v.NotSequence? {
      return Err(TypeError);
    }
    if |v.items| == 0 || |v.items| > MAX_PROFILES {
      return Err(ValueError);
    }
    var profiles: seq<Profile> := [];
    var seen: set<string> := {};
    for n := 0 to |v.items|
      invariant ReadItems(create, v.items[..n]) == Ok(profiles) && seen == Ids(profiles)
    {
      assert v.items[..n + 1][..n] == v.items[..n];
      FailureStays(create, v.items, n + 1);
      if v.items[n].NotMapping? {
        return Err(TypeError);
      }
      var profile :- create(v.items[n].profile);
      if profile.id in seen {
        return Err(ValueError);
      }
      seen := seen + {profile.id};
      profiles := profiles + [profile];
    }
    assert v.items[..|v.items|] == v.items;
    return Ok(profiles);
  }

  /** The first failure is the failure of the list. */
  lemma {:induction false} FailureStays(create: Creator, items: seq<ProfileItem>, n: nat)
    requires n <= |items|
    ensures ReadItems(create, items[..n]).Err? ==> ReadItems(create, items) == ReadItems(create, items[..n])
    decreases |items|
  {
    if n == |items| {
      assert items[..n] == items;
    } else {
      FailureStays(create, items[..|items| - 1], n);
      assert items[..|items| - 1][..n] == items[..n];
    }
  }

  ghost predicate ProperProfiles(t: Rules, profiles: seq<Profile>) {
    && (forall i | 0 <= i < |profiles| :: ProperProfile(t, profiles[i]))
    && forall i, k | 0 <= i < k < |profiles| :: profiles[i].id != profiles[k].id
  }

  lemma {:induction false} ReadItemsAreProper(t: Rules, items: seq<ProfileItem>)
    requires Lawful(t) && ReadItems(Creating(t), items).Ok?
    ensures ProperProfiles(t, ReadItems(Creating(t), items).value)
  {
    if items != [] {
      ReadItemsAreProper(t, items[..|items| - 1]);
      AcceptedProfileIsProper(t, items[|items| - 1].profile);
    }
  }

  function WrittenItems(profiles: seq<Profile>): seq<ProfileItem> {
    seq(|profiles|, i requires 0 <= i < |profiles| => Mapping(Written(profiles[i])))
  }

  /** A creator that reads back every profile of a list reads back the list. */
  lemma {:induction false} ItemsAreFixed(create: Creator, profiles: seq<Profile>)
    requires forall i | 0 <= i < |profiles| :: create(Written(profiles[i])) == Ok(profiles[i])
    requires forall i, k | 0 <= i < k < |profiles| :: profiles[i].id != profiles[k].id
    ensures ReadItems(create, WrittenItems(profiles)) == Ok(profiles)
  {
    if profiles != [] {
      var front, last := profiles[..|profiles| - 1], profiles[|profiles| - 1];
      ItemsAreFixed(create, front);
      assert WrittenItems(profiles)[..|profiles| - 1] == WrittenItems(front);
      assert last.id !in Ids(front);
      assert create(Written(last)) == Ok(last);
      assert front + [last] == profiles;
    }
  }

  // ----- Routes -----

  function ReadRoute(t: Rules, entry: (string, Scalar), ids: set<string>): Result<(string, string)> {
    var text :- RequiredText(t, Str(entry.0));
    var task := t.fold(text);
    if task !in t.tables.tasks then Err(ValueError)
    else
      var id :- ProfileId(t, entry.1);
      if id in ids then Ok((task, id)) else Err(ValueError)
  }

  /** Later entries for the same task replace earlier ones. */
  function ReadRoutes(t: Rules, entries: seq<(string, Scalar)>, ids: set<string>): Result<map<string, string>> {
    if entries == [] then Ok(map[])
    else
      var before :- ReadRoutes(t, entries[..|entries| - 1], ids);
      var route :- ReadRoute(t, entries[|entries| - 1], ids);
      Ok(before[route.0 := route.1])
  }

  function TaskRoutes(t: Rules, v: Option<RoutesValue>, ids: set<string>): Result<map<string, string>> {
    if v.None? || v.value.NullRoutes? then Ok(map[])
    else if v.value.NotRoutes? then Err(TypeError)
    else ReadRoutes(t, v.value.entries, ids)
  }

  method NormalizeRoutes(t: Rules, v: Option<RoutesValue>, ids: set<string>) returns (r: Result<map<string, string>>)
    ensures r == TaskRoutes(t, v, ids)
  {
    if v.None? || v.value.NullRoutes? {
      return Ok(map[]);
    }
    if v.value.NotRoutes? {
      return Err(TypeError);
    }
    var entries := v.value.entries;
    var routes: map<string, string> := map[];
    for n := 0 to |entries|
      invariant ReadRoutes(t, entries[..n], ids) == Ok(routes)
    {
      assert entries[..n + 1][..n] == entries[..n];
      RouteFailureStays(t, entries, n + 1, ids);
      var route :- ReadRoute(t, entries[n], ids);
      routes := routes[route.0 := route.1];
    }
    assert entries[..|entries|] == entries;
    return Ok(routes);
  }

  lemma {:induction false} RouteFailureStays(t: Rules, entries: seq<(string, Scalar)>, n: nat, ids: set<string>)
    requires n <= |entries|
    ensures ReadRoutes(t, entries[..n], ids).Err? ==> ReadRoutes(t, entries, ids) == ReadRoutes(t, entries[..n], ids)
    decreases |entries|
  {
    if n == |entries| {
      assert entries[..n] == entries;
    } else {
      RouteFailureStays(t, entries[..|entries| - 1], n, ids);
      assert entries[..|entries| - 1][..n] == entries[..n];
    }
  }

  /** Tasks of the protocol routed to known profiles. */
  ghost predicate ProperRoutes(t: Rules, routes: map<string, string>, ids: set<string>) {
    forall task | task in routes :: task in t.tables.tasks && routes[task] in ids && IsProfileId(routes[task])
  }

  lemma {:induction false} ReadRoutesAreProper(t: Rules, entries: seq<(string, Scalar)>, ids: set<string>)
    requires ReadRoutes(t, entries, ids).Ok?
    ensures ProperRoutes(t, ReadRoutes(t, entries, ids).value, ids)
  {
    if entries != [] {
      ReadRoutesAreProper(t, entries[..|entries| - 1], ids);
    }
  }

  /** The routes written out task by task. */
  function WrittenRoutes(tasks: seq<string>, routes: map<string, string>): seq<(string, Scalar)> {
    if tasks == [] then []
    else
      var last := tasks[|tasks| - 1];
      WrittenRoutes(tasks[..|tasks| - 1], routes) + if last in routes then [(last, Str(routes[last]))] else []
  }

  function Chosen(tasks: seq<string>, routes: map<string, string>): map<string, string> {
    map task | task in routes && task in tasks :: routes[task]
  }

  lemma {:induction false} RoutesAreFixed(t: Rules, tasks: seq<string>, routes: map<string, string>, ids: set<string>)
    requires forall task | task in routes && task in tasks :: ReadRoute(t, (task, Str(routes[task])), ids) == Ok((task, routes[task]))
    ensures ReadRoutes(t, WrittenRoutes(tasks, routes), ids) == Ok(Chosen(tasks, routes))
  {
    if tasks == [] {
      assert Chosen(tasks, routes) == map[];
    } else {
      var front, last := tasks[..|tasks| - 1], tasks[|tasks| - 1];
      assert forall task :: task in tasks <==> task in front || task == last;
      RoutesAreFixed(t, front, routes, ids);
      var written := WrittenRoutes(tasks, routes);
      if last in routes {
        assert written[..|written| - 1] == WrittenRoutes(front, routes);
        assert Chosen(tasks, routes) == Chosen(front, routes)[last := routes[last]];
      } else {
        assert written == WrittenRoutes(front, routes) && Chosen(tasks, routes) == Chosen(front, routes);
      }
    }
  }

  lemma ProperRouteIsFixed(t: Rules, routes: map<string, string>, ids: set<string>, task: string)
    requires Lawful(t) && ProperRoutes(t, routes, ids) && task in routes
    ensures ReadRoute(t, (task, Str(routes[task])), ids) == Ok((task, routes[task]))
  {
  }

  // ----- The whole configuration -----

  /** `shown` is the profile whose nine model fields the state repeats at the top. */
  datatype LlmState = LlmState(enabled: bool, shown: Profile, profiles: seq<Profile>, defaultId: string,
                               routes: map<string, string>, fallback: bool)

  function Flag(v: Scalar): Result<bool> {
    if v.Bool? then Ok(v.b) else Err(TypeError)
  }

  function DefaultId(t: Rules, v: Option<Scalar>, profiles: seq<Profile>): (r: Result<string>)
    requires profiles != []
    ensures r.Ok? ==> r.value in Ids(profiles)
  {
    if v.None? || v.value.Null? then
      assert profiles[0] in profiles;
      Ok(if DEFAULT_ID in Ids(profiles) then DEFAULT_ID else profiles[0].id)
    else
      var id :- RequiredText(t, v.value);
      if id in Ids(profiles) then Ok(id) else Err(ValueError)
  }

  function Numeric(v: Scalar): Option<real> {
    match v case Bool(b) => Some(if b then 1.0 else 0.0) case Int(i) => Some(i as real) case Num(r) => Some(r) case _ => None
  }

  /** Equality of a configured value with a normalised one: numbers by value, truth values counting as 0 and 1. */
  predicate Same(v: Option<Scalar>, w: Option<Scalar>) {
    || v.None?
    || (w.Some? && if Numeric(v.value).Some? then Numeric(v.value) == Numeric(w.value)
                   else v.value != Structure && v.value == w.value)
  }

  predicate Agrees(fields: RawModel, mirror: RawModel) {
    && Same(fields.provider, mirror.provider) && Same(fields.model, mirror.model) && Same(fields.apiKeyEnv, mirror.apiKeyEnv)
    && Same(fields.baseUrlEnv, mirror.baseUrlEnv) && Same(fields.optionsEnv, mirror.optionsEnv) && Same(fields.method_, mirror.method_)
    && Same(fields.temperature, mirror.temperature) && Same(fields.maxTokens, mirror.maxTokens) && Same(fields.timeout, mirror.timeout)
  }

  function ById(profiles: seq<Profile>, id: string): (p: Profile)
    requires id in Ids(profiles)
    ensures p in profiles && p.id == id
  {
    if profiles[|profiles| - 1].id == id then profiles[|profiles| - 1] else
      assert profiles == profiles[..|profiles| - 1] + [profiles[|profiles| - 1]];
      ById(profiles[..|profiles| - 1], id)
  }

  /** A configuration without a profile list is one profile named "default". */
  function ConfiguredProfiles(t: Rules, raw: RawConfig): (r: Result<seq<Profile>>)
    ensures r.Ok? ==> r.value != []
  {
    if raw.profiles.Some? then ReadProfiles(Creating(t), raw.profiles.value)
    else
      var p :- CreateProfile(t, RawProfile(Some(Str(DEFAULT_ID)), raw.fields, false));
      Ok([p])
  }

  function CreateConfig(t: Rules, raw: RawConfig): Result<LlmState> {
    if raw.unknownFields then Err(ValueError)
    else
      var enabled :- Flag(Or(raw.enabled, Bool(false)));
      var fallback :- Flag(Or(raw.fallback, Bool(true)));
      var profiles :- ConfiguredProfiles(t, raw);
      Assemble(t, raw, enabled, fallback, profiles)
  }

  function Assemble(t: Rules, raw: RawConfig, enabled: bool, fallback: bool, profiles: seq<Profile>): Result<LlmState>
    requires profiles != []
  {
    var defaultId :- DefaultId(t, raw.defaultId, profiles);
    var routes :- TaskRoutes(t, raw.routes, Ids(profiles));
    var shown := ById(profiles, defaultId);
    if raw.profiles.Some? && !Agrees(raw.fields, Mirror(shown)) then Err(ValueError)
    else Ok(LlmState(enabled, shown, profiles, defaultId, routes, fallback))
  }

  /** What every accepted state satisfies. */
  ghost predicate ProperState(t: Rules, s: LlmState) {
    && 0 < |s.profiles| <= MAX_PROFILES && ProperProfiles(t, s.profiles)
    && s.defaultId in Ids(s.profiles) && s.shown == ById(s.profiles, s.defaultId)
    && ProperRoutes(t, s.routes, Ids(s.profiles))
  }

  lemma AcceptedStateIsProper(t: Rules, raw: RawConfig)
    requires Lawful(t) && CreateConfig(t, raw).Ok?
    ensures ProperState(t, CreateConfig(t, raw).value)
  {
    var profiles := ConfiguredProfiles(t, raw).value;
    ConfiguredAreProper(t, raw);
    if raw.routes.Some? && raw.routes.value.RouteMap? {
      ReadRoutesAreProper(t, raw.routes.value.entries, Ids(profiles));
    }
  }

  lemma ConfiguredAreProper(t: Rules, raw: RawConfig)
    requires Lawful(t) && ConfiguredProfiles(t, raw).Ok?
    ensures var profiles := ConfiguredProfiles(t, raw).value; 0 < |profiles| <= MAX_PROFILES && ProperProfiles(t, profiles)
  {
    if raw.profiles.Some? {
      ReadItemsAreProper(t, raw.profiles.value.items);
    } else {
      AcceptedProfileIsProper(t, RawProfile(Some(Str(DEFAULT_ID)), raw.fields, false));
    }
  }

  /** A state written out as configuration: profiles, routes and the repeated fields all present. */
  function WrittenConfig(t: Rules, s: LlmState): RawConfig {
    RawConfig(Some(Bool(s.enabled)), Some(Bool(s.fallback)), Mirror(s.shown), Some(Sequence(WrittenItems(s.profiles))),
              Some(Str(s.defaultId)), Some(RouteMap(WrittenRoutes(t.tables.tasks, s.routes))), false)
  }

  lemma ProfileListIsFixed(t: Rules, profiles: seq<Profile>)
    requires Lawful(t) && 0 < |profiles| <= MAX_PROFILES && ProperProfiles(t, profiles)
    ensures ReadProfiles(Creating(t), Sequence(WrittenItems(profiles))) == Ok(profiles)
  {
    forall i | 0 <= i < |profiles| ensures Creating(t)(Written(profiles[i])) == Ok(profiles[i]) {
      ProfileIsFixed(t, profiles[i]);
    }
    ItemsAreFixed(Creating(t), profiles);
  }

  lemma RouteMapIsFixed(t: Rules, routes: map<string, string>, ids: set<string>)
    requires Lawful(t) && ProperRoutes(t, routes, ids)
    ensures ReadRoutes(t, WrittenRoutes(t.tables.tasks, routes), ids) == Ok(routes)
  {
    forall task | task in routes && task in t.tables.tasks
      ensures ReadRoute(t, (task, Str(routes[task])), ids) == Ok((task, routes[task]))
    {
      ProperRouteIsFixed(t, routes, ids, task);
    }
    RoutesAreFixed(t, t.tables.tasks, routes, ids);
    assert Chosen(t.tables.tasks, routes) == routes;
  }

  /** Whatever form a configuration had, its normalised state is accepted again and normalises to itself. */
  lemma NormalizationIsFixpoint(t: Rules, raw: RawConfig)
    requires Lawful(t) && CreateConfig(t, raw).Ok?
    ensures CreateConfig(t, WrittenConfig(t, CreateConfig(t, raw).value)) == CreateConfig(t, raw)
  {
    var s := CreateConfig(t, raw).value;
    AcceptedStateIsProper(t, raw);
    ProperStateIsFixed(t, s);
  }

  lemma ProperStateIsFixed(t: Rules, s: LlmState)
    requires Lawful(t) && ProperState(t, s)
    ensures CreateConfig(t, WrittenConfig(t, s)) == Ok(s)
  {
    var written := WrittenConfig(t, s);
    ProfileListIsFixed(t, s.profiles);
    RouteMapIsFixed(t, s.routes, Ids(s.profiles));
    DefaultIdIsClean(t, s.profiles, s.defaultId);
    AssembleIsFixed(t, s, written);
    ReadsWhatItWrote(t, s, written);
  }

  lemma ReadsWhatItWrote(t: Rules, s: LlmState, written: RawConfig)
    requires written == WrittenConfig(t, s) && s.profiles != []
    requires ReadProfiles(Creating(t), Sequence(WrittenItems(s.profiles))) == Ok(s.profiles)
    ensures CreateConfig(t, written) == Assemble(t, written, s.enabled, s.fallback, s.profiles)
  {
    assert ConfiguredProfiles(t, written) == Ok(s.profiles);
  }

  lemma AssembleIsFixed(t: Rules, s: LlmState, written: RawConfig)
    requires written == WrittenConfig(t, s) && s.profiles != []
    requires RequiredText(t, Str(s.defaultId)) == Ok(s.defaultId) && s.defaultId in Ids(s.profiles)
    requires s.shown == ById(s.profiles, s.defaultId)
    requires ReadRoutes(t, WrittenRoutes(t.tables.tasks, s.routes), Ids(s.profiles)) == Ok(s.routes)
    ensures Assemble(t, written, s.enabled, s.fallback, s.profiles) == Ok(s)
  {
    assert DefaultId(t, written.defaultId, s.profiles) == Ok(s.defaultId);
    assert TaskRoutes(t, written.routes, Ids(s.profiles)) == Ok(s.routes);
    MirrorAgrees(s.shown);
  }

  lemma MirrorAgrees(p: Profile)
    ensures Agrees(Mirror(p), Mirror(p))
  {
  }

  lemma DefaultIdIsClean(t: Rules, profiles: seq<Profile>, id: string)
    requires Lawful(t) && ProperProfiles(t, profiles) && id in Ids(profiles)
    ensures RequiredText(t, Str(id)) == Ok(id)
  {
    var p := ById(profiles, id);
    var i :| 0 <= i < |profiles| && profiles[i] == p;
    assert ProperProfile(t, profiles[i]);
  }

  // ----- Resolution -----

  function Resolve(t: Rules, s: LlmState, id: Option<Scalar>, task: Option<Scalar>): Result<Profile> {
    var chosen :- if id.Some? then ProfileId(t, id.value)
                  else if task.Some? then
                    var text :- RequiredText(t, task.value);
                    if t.fold(text) !in t.tables.tasks then Err(ValueError)
                    else Ok(if t.fold(text) in s.routes then s.routes[t.fold(text)] else s.defaultId)
                  else Ok(s.defaultId);
    if chosen in Ids(s.profiles) then Ok(ById(s.profiles, chosen)) else Err(ValueError)
  }

  /**
   * Every task of the protocol resolves to the profile it is routed to or else
   * to the default, and an explicit identifier resolves exactly when a profile has it.
   */
  lemma ResolutionSucceeds(t: Rules, raw: RawConfig, name: string)
    requires Lawful(t) && CreateConfig(t, raw).Ok?
    ensures var s := CreateConfig(t, raw).value;
            && (name in t.tables.tasks ==> RoutedTo(t, s, name, if name in s.routes then s.routes[name] else s.defaultId))
            && Resolve(t, s, None, None) == Ok(s.shown)
            && (IsProfileId(name) ==> (Resolve(t, s, Some(Str(name)), None).Ok? <==> name in Ids(s.profiles)))
  {
    AcceptedStateIsProper(t, raw);
  }

  /** The task resolves to a profile of the state, the one with the given identifier. */
  predicate RoutedTo(t: Rules, s: LlmState, task: string, id: string) {
    var r := Resolve(t, s, None, Some(Str(task)));
    r.Ok? && r.value in s.profiles && r.value.id == id
  }

  /** The legacy form means the multi-profile form with its one profile named "default". */
  lemma LegacyMeansOneProfile(t: Rules, raw: RawConfig)
    requires raw.profiles.None?
    ensures var item := Mapping(RawProfile(Some(Str(DEFAULT_ID)), raw.fields, false));
            var absent := RawModel(None, None, None, None, None, None, None, None, None);
            CreateConfig(t, raw) == CreateConfig(t, raw.(profiles := Some(Sequence([item])), fields := absent))
  {
    var item := Mapping(RawProfile(Some(Str(DEFAULT_ID)), raw.fields, false));
    assert ReadItems(Creating(t), [item][..0]) == Ok([]);
    assert ReadItems(Creating(t), [item]) == ReadItem(Creating(t), [], item);
    assert Ids([]) == {};
    if CreateProfile(t, item.profile).Ok? {
      assert [] + [CreateProfile(t, item.profile).value] == [CreateProfile(t, item.profile).value];
    }
  }

  // ----- The tables of the repository -----

  function Providers(): set<string> {
    {"mock", "anthropic", "anthropic_bedrock", "azure_ai", "azure_openai", "baseten", "bedrock", "bedrock_converse", "cohere",
     "deepseek", "fireworks", "google_anthropic_vertex", "google_genai", "google_vertexai", "groq", "huggingface", "ibm",
     "litellm", "meta", "mistralai", "nvidia", "ollama", "openai", "openai_compatible", "openrouter", "perplexity", "qwen",
     "together", "upstage", "xai", "zhipuai"}
  }

  function Aliases(): map<string, string> {
    map["claude" := "anthropic", "gemini" := "google_genai", "glm" := "zhipuai", "openai-compatible" := "openai_compatible"]
  }

  function StandardTables(): Tables {
    Tables(
      Providers(), Aliases(),
      map["anthropic" := "ANTHROPIC_API_KEY", "azure_ai" := "AZURE_OPENAI_API_KEY", "azure_openai" := "AZURE_OPENAI_API_KEY",
          "baseten" := "BASETEN_API_KEY", "cohere" := "COHERE_API_KEY", "deepseek" := "DEEPSEEK_API_KEY",
          "fireworks" := "FIREWORKS_API_KEY", "google_genai" := "GOOGLE_API_KEY", "groq" := "GROQ_API_KEY",
          "huggingface" := "HUGGINGFACEHUB_API_TOKEN", "meta" := "META_API_KEY", "mistralai" := "MISTRAL_API_KEY",
          "nvidia" := "NVIDIA_API_KEY", "openai" := "OPENAI_API_KEY", "openai_compatible" := "OPENAI_COMPATIBLE_API_KEY",
          "openrouter" := "OPENROUTER_API_KEY", "perplexity" := "PPLX_API_KEY", "qwen" := "DASHSCOPE_API_KEY",
          "together" := "TOGETHER_API_KEY", "upstage" := "UPSTAGE_API_KEY", "xai" := "XAI_API_KEY", "zhipuai" := "ZHIPUAI_API_KEY"],
      map["anthropic" := "ANTHROPIC_BASE_URL", "deepseek" := "DEEPSEEK_API_BASE", "openai" := "OPENAI_BASE_URL",
          "openai_compatible" := "OPENAI_COMPATIBLE_BASE_URL", "qwen" := "DASHSCOPE_API_BASE", "zhipuai" := "ZHIPUAI_BASE_URL"],
      {"anthropic", "deepseek", "google_genai", "openai", "openai_compatible", "openrouter", "qwen", "zhipuai"},
      {"openai_compatible", "zhipuai"},
      {"auto", "function_calling", "json_mode", "json_schema"},
      ["content", "version", "evidence", "recommendation_judge"],
      "mock", "mock-structured-v1", "auto")
  }

  /** No alias is itself a supported name, which is what makes normalising a provider twice harmless. */
  lemma AliasesAreNotSupported()
    ensures Providers() !! Aliases().Keys
  {
    assert "claude" !in Providers();
    assert "gemini" !in Providers();
    assert "glm" !in Providers();
    assert "openai-compatible" !in Providers();
  }

  lemma NamesAreNotEmpty()
    ensures "" !in Providers() && "" !in StandardTables().methods && "" !in StandardTables().tasks
  {
  }

  /** With these tables the laws above ask of trimming and folding only what any implementation provides. */
  lemma StandardIsLawful(t: Rules)
    requires t.tables.supported == Providers() && t.tables.aliases == Aliases()
    requires t.tables.methods == StandardTables().methods && t.tables.tasks == StandardTables().tasks
    requires forall s :: t.strip(t.strip(s)) == t.strip(s)
    requires forall s | IsProfileId(s) || IsEnvironmentName(s) :: t.strip(s) == s
    requires forall s | s in t.tables.supported || s in t.tables.methods || s in t.tables.tasks :: t.strip(s) == s && t.fold(s) == s
    ensures Lawful(t)
  {
    AliasesAreNotSupported();
    NamesAreNotEmpty();
  }
}
