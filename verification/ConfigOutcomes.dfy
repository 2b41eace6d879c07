/**
 * What an accepted model configuration says about its input: where each field
 * of a profile comes from, which lists and routes are accepted, which default
 * holds, and which repeated fields are refused.
 */
module ConfigOutcomes {
  import opened Options
  import opened LlmConfig

  // ----- Names -----

  /** One to sixty-four letters, digits, dots, underscores or hyphens, beginning with a letter or digit. */
  predicate CleanId(s: string) {
    && 1 <= |s| <= 64 && forall i | 0 <= i < |s| ::
         || 'A' <= s[i] <= 'Z' || 'a' <= s[i] <= 'z' || '0' <= s[i] <= '9'
         || (i > 0 && (s[i] == '.' || s[i] == '_' || s[i] == '-'))
  }

  /** Letters, digits and underscores, not beginning with a digit. */
  predicate CleanVariable(s: string) {
    s != "" && forall i | 0 <= i < |s| ::
      'A' <= s[i] <= 'Z' || 'a' <= s[i] <= 'z' || s[i] == '_' || (i > 0 && '0' <= s[i] <= '9')
  }

  lemma NamesAreClean(s: string)
    ensures IsProfileId(s) <==> CleanId(s)
    ensures IsEnvironmentName(s) <==> CleanVariable(s)
  {
    if CleanId(s) {
      assert Letter(s[0]) || Digit(s[0]);
    }
  }

  // ----- One profile -----

  /** A configured text in the form in which it is stored. */
  predicate Says(t: Rules, v: Option<Scalar>, s: string) {
    v.Some? && v.value.Str? && t.strip(v.value.s) == s && s != ""
  }

  /** A variable name: as configured, none where null is configured, and the standard one where nothing is. */
  predicate NamesVariable(t: Rules, v: Option<Scalar>, standard: Option<string>, name: Option<string>) {
    if v.None? then (if standard.Some? then name.Some? && t.strip(standard.value) == name.value else name.None?)
    else if v.value.Null? then name.None?
    else v.value.Str? && name.Some? && t.strip(v.value.s) == name.value
  }

  function StandardVariable(defaults: map<string, string>, provider: string): Option<string> {
    if provider in defaults then Some(defaults[provider]) else None
  }

  predicate IsNumber(v: Option<Scalar>, standard: real, x: real) {
    if v.None? then x == standard else (v.value.Num? && v.value.r == x) || (v.value.Int? && v.value.i as real == x)
  }

  /**
   * Every field of an accepted profile is the configured one, trimmed, folded and
   * with aliases resolved, or the documented default, and lies within its limits.
   */
  lemma AcceptedProfileSaysWhatWasConfigured(t: Rules, raw: RawProfile)
    requires CreateProfile(t, raw).Ok?
    ensures var p, m := CreateProfile(t, raw).value, raw.fields;
            && Says(t, raw.id, p.id) && CleanId(p.id) && !raw.unknownFields
            && (m.provider.Some? ==> m.provider.value.Str?)
            && (var folded := t.fold(t.strip(if m.provider.Some? then m.provider.value.s else t.tables.mock));
                p.provider == if folded in t.tables.aliases then t.tables.aliases[folded] else folded)
            && p.provider in t.tables.supported
            && (m.model.Some? ==> Says(t, m.model, p.model))
            && (m.model.None? ==> p.model == t.strip(if p.provider == t.tables.mock then t.tables.defaultModel else "") && p.model != "")
            && NamesVariable(t, m.apiKeyEnv, StandardVariable(t.tables.keyDefaults, p.provider), p.apiKeyEnv)
            && NamesVariable(t, m.baseUrlEnv, StandardVariable(t.tables.urlDefaults, p.provider), p.baseUrlEnv)
            && NamesVariable(t, m.optionsEnv, None, p.optionsEnv)
            && (forall name <- {p.apiKeyEnv, p.baseUrlEnv, p.optionsEnv} :: name.Some? ==> CleanVariable(name.value))
            && (m.method_.Some? ==> m.method_.value.Str? && p.method_ == t.fold(t.strip(m.method_.value.s)))
            && p.method_ in t.tables.methods
            && IsNumber(m.temperature, 0.0, p.temperature) && 0.0 <= p.temperature <= 2.0
            && IsNumber(m.maxTokens, 800.0, p.maxTokens as real) && 1 <= p.maxTokens <= 32768
            && (m.maxTokens.Some? ==> m.maxTokens.value.Int?)
            && IsNumber(m.timeout, 30.0, p.timeout) && 0.0 < p.timeout <= 300.0
    ensures var p := CreateProfile(t, raw).value;
            && (p.provider in t.tables.needKey ==> p.apiKeyEnv.Some?)
            && (p.provider in t.tables.needUrl ==> p.baseUrlEnv.Some?)
            && (p.provider == t.tables.mock ==> p.apiKeyEnv.None? && p.baseUrlEnv.None? && p.optionsEnv.None? && p.method_ == t.tables.auto)
  {
    var p := CreateProfile(t, raw).value;
    NamesAreClean(p.id);
    if p.apiKeyEnv.Some? {
      NamesAreClean(p.apiKeyEnv.value);
    }
    if p.baseUrlEnv.Some? {
      NamesAreClean(p.baseUrlEnv.value);
    }
    if p.optionsEnv.Some? {
      NamesAreClean(p.optionsEnv.value);
    }
  }

  /** However its texts are spelled, a profile that says the same as an accepted one is accepted and is the same. */
  lemma SpellingDoesNotMatter(t: Rules, raw: RawProfile, p: Profile)
    requires Lawful(t) && ProperProfile(t, p) && !raw.unknownFields
    requires Says(t, raw.id, p.id) && Says(t, raw.fields.model, p.model)
    requires raw.fields.provider.Some? && raw.fields.provider.value.Str? && t.strip(raw.fields.provider.value.s) != ""
    requires var folded := t.fold(t.strip(raw.fields.provider.value.s));
             p.provider == if folded in t.tables.aliases then t.tables.aliases[folded] else folded
    requires raw.fields.apiKeyEnv.Some? && NamesVariable(t, raw.fields.apiKeyEnv, None, p.apiKeyEnv)
    requires raw.fields.baseUrlEnv.Some? && NamesVariable(t, raw.fields.baseUrlEnv, None, p.baseUrlEnv)
    requires raw.fields.optionsEnv.Some? && NamesVariable(t, raw.fields.optionsEnv, None, p.optionsEnv)
    requires raw.fields.method_.Some? && raw.fields.method_.value.Str? && t.strip(raw.fields.method_.value.s) != ""
    requires t.fold(t.strip(raw.fields.method_.value.s)) == p.method_
    requires raw.fields.temperature.Some? && IsNumber(raw.fields.temperature, 0.0, p.temperature)
    requires raw.fields.maxTokens == Some(Int(p.maxTokens))
    requires raw.fields.timeout.Some? && IsNumber(raw.fields.timeout, 30.0, p.timeout)
    ensures CreateProfile(t, raw) == Ok(p)
  {
    assert ProfileId(t, Or(raw.id, Null)) == Ok(p.id);
    assert Provider(t, Or(raw.fields.provider, Str(t.tables.mock))) == Ok(p.provider);
    EnvironmentIsRead(t, raw.fields.apiKeyEnv.value, p.apiKeyEnv);
    EnvironmentIsRead(t, raw.fields.baseUrlEnv.value, p.baseUrlEnv);
    EnvironmentIsRead(t, raw.fields.optionsEnv.value, p.optionsEnv);
    assert Method(t, Or(raw.fields.method_, Str(t.tables.auto))) == Ok(p.method_);
  }

  lemma EnvironmentIsRead(t: Rules, v: Scalar, name: Option<string>)
    requires NamesVariable(t, Some(v), None, name) && (name.Some? ==> IsEnvironmentName(name.value))
    ensures EnvironmentName(t, v) == Ok(name)
  {
  }

  /** A profile that only has an identifier is the offline mock: no variables, temperature 0, 800 tokens and 30 seconds. */
  lemma DefaultProfile(t: Rules, id: string)
    requires Lawful(t) && IsProfileId(id) && t.tables.mock in t.tables.supported && t.tables.auto in t.tables.methods
    requires t.tables.mock !in t.tables.needKey + t.tables.needUrl
    requires t.tables.mock !in t.tables.keyDefaults && t.tables.mock !in t.tables.urlDefaults
    requires t.strip(t.tables.defaultModel) == t.tables.defaultModel != ""
    ensures var absent := RawModel(None, None, None, None, None, None, None, None, None);
            CreateProfile(t, RawProfile(Some(Str(id)), absent, false))
            == Ok(Profile(id, t.tables.mock, t.tables.defaultModel, None, None, None, t.tables.auto, 0.0, 800, 30.0))
  {
    assert t.tables.mock !in t.tables.aliases.Keys;
  }

  // ----- The list of profiles -----

  /** The item at one place is accepted as a profile with the identifier. */
  predicate AcceptedAt(create: Creator, items: seq<ProfileItem>, i: int, id: string) {
    0 <= i < |items| && items[i].Mapping? && create(items[i].profile).Ok? && create(items[i].profile).value.id == id
  }

  predicate ItemsAreProfiles(create: Creator, items: seq<ProfileItem>) {
    forall i | 0 <= i < |items| :: items[i].Mapping? && create(items[i].profile).Ok?
  }

  ghost predicate IdsDiffer(create: Creator, items: seq<ProfileItem>) {
    forall i, k, id | 0 <= i < k && AcceptedAt(create, items, i, id) :: !AcceptedAt(create, items, k, id)
  }

  predicate ReadInOrder(create: Creator, items: seq<ProfileItem>, profiles: seq<Profile>) {
    |profiles| == |items| && forall i | 0 <= i < |items| :: items[i].Mapping? && create(items[i].profile) == Ok(profiles[i])
  }

  lemma {:induction false} ItemsAreReadInOrder(create: Creator, items: seq<ProfileItem>)
    ensures ReadItems(create, items).Ok? <==> ItemsAreProfiles(create, items) && IdsDiffer(create, items)
    ensures ReadItems(create, items).Ok? ==> ReadInOrder(create, items, ReadItems(create, items).value)
  {
    if items != [] {
      var front, last := items[..|items| - 1], items[|items| - 1];
      ItemsAreReadInOrder(create, front);
      if ReadItems(create, front).Ok? && last.Mapping? && create(last.profile).Ok? {
        LastIsNew(create, items, ReadItems(create, front).value, create(last.profile).value);
      } else if ItemsAreProfiles(create, items) && IdsDiffer(create, items) {
        FrontIsGood(create, items);
      }
    }
  }

  lemma LastIsNew(create: Creator, items: seq<ProfileItem>, before: seq<Profile>, p: Profile)
    requires items != [] && AcceptedAt(create, items, |items| - 1, p.id)
    requires ItemsAreProfiles(create, items[..|items| - 1]) && IdsDiffer(create, items[..|items| - 1])
    requires ReadInOrder(create, items[..|items| - 1], before)
    ensures ItemsAreProfiles(create, items)
    ensures p.id !in Ids(before) <==> IdsDiffer(create, items)
  {
    var front, n := items[..|items| - 1], |items| - 1;
    assert forall i | 0 <= i < n :: front[i] == items[i];
    forall i, id | i < n ensures AcceptedAt(create, front, i, id) <==> AcceptedAt(create, items, i, id) {
    }
    if p.id in Ids(before) {
      var q :| q in before && q.id == p.id;
      var i :| 0 <= i < |before| && before[i] == q;
      assert AcceptedAt(create, items, i, p.id);
    } else {
      forall i | 0 <= i < n ensures before[i].id != p.id {
        assert before[i] in before;
      }
    }
  }

  lemma FrontIsGood(create: Creator, items: seq<ProfileItem>)
    requires items != [] && ItemsAreProfiles(create, items) && IdsDiffer(create, items)
    ensures ItemsAreProfiles(create, items[..|items| - 1]) && IdsDiffer(create, items[..|items| - 1])
  {
    var front := items[..|items| - 1];
    forall i, id ensures AcceptedAt(create, front, i, id) ==> AcceptedAt(create, items, i, id) {
    }
  }

  /** A list is accepted exactly when it has one to thirty-two items, each an accepted profile, with different identifiers; its order is kept. */
  lemma ProfileListAcceptedExactly(create: Creator, v: ProfilesValue)
    ensures ReadProfiles(create, v).Ok? <==>
            v.Sequence? && 1 <= |v.items| <= 32 && ItemsAreProfiles(create, v.items) && IdsDiffer(create, v.items)
    ensures ReadProfiles(create, v).Ok? ==> ReadInOrder(create, v.items, ReadProfiles(create, v).value)
  {
    if v.Sequence? {
      ItemsAreReadInOrder(create, v.items);
    }
  }

  // ----- Routes -----

  /** The entry routes the task to the profile. */
  predicate Routes(t: Rules, entry: (string, Scalar), ids: set<string>, task: string, id: string) {
    && t.strip(entry.0) != "" && t.fold(t.strip(entry.0)) == task && task in t.tables.tasks
    && entry.1.Str? && t.strip(entry.1.s) == id && CleanId(id) && id in ids
  }

  /** The last entry for the task routes it there. */
  predicate LastRoute(t: Rules, entries: seq<(string, Scalar)>, ids: set<string>, i: int, task: string, id: string) {
    && 0 <= i < |entries| && Routes(t, entries[i], ids, task, id)
    && forall k | i < k < |entries| :: t.fold(t.strip(entries[k].0)) != task
  }

  ghost predicate Routable(t: Rules, entry: (string, Scalar), ids: set<string>) {
    exists task, id :: Routes(t, entry, ids, task, id)
  }

  /** The configured routes send the task to the profile. */
  ghost predicate Sends(t: Rules, entries: seq<(string, Scalar)>, ids: set<string>, task: string, id: string) {
    exists i :: LastRoute(t, entries, ids, i, task, id)
  }

  predicate Holds(routes: map<string, string>, task: string, id: string) {
    task in routes && routes[task] == id
  }

  lemma RouteMeans(t: Rules, entry: (string, Scalar), ids: set<string>)
    ensures ReadRoute(t, entry, ids).Ok? <==> Routable(t, entry, ids)
    ensures forall task, id :: Routes(t, entry, ids, task, id) <==> ReadRoute(t, entry, ids) == Ok((task, id))
  {
    if entry.1.Str? {
      NamesAreClean(t.strip(entry.1.s));
    }
    if ReadRoute(t, entry, ids).Ok? {
      var r := ReadRoute(t, entry, ids).value;
      assert Routes(t, entry, ids, r.0, r.1);
    }
  }

  /** Routes are accepted exactly when every entry routes a task of the protocol to a known profile; the last entry for a task holds. */
  lemma {:induction false} RoutesAcceptedExactly(t: Rules, entries: seq<(string, Scalar)>, ids: set<string>)
    ensures ReadRoutes(t, entries, ids).Ok? <==> forall i | 0 <= i < |entries| :: Routable(t, entries[i], ids)
    ensures ReadRoutes(t, entries, ids).Ok? ==>
              forall task, id :: Holds(ReadRoutes(t, entries, ids).value, task, id) <==> Sends(t, entries, ids, task, id)
  {
    if entries != [] {
      var front, last := entries[..|entries| - 1], entries[|entries| - 1];
      RoutesAcceptedExactly(t, front, ids);
      RouteMeans(t, last, ids);
      assert forall i | 0 <= i < |front| :: front[i] == entries[i];
      assert entries == front + [last];
      if ReadRoutes(t, entries, ids).Ok? {
        forall task, id ensures Holds(ReadRoutes(t, entries, ids).value, task, id) <==> Sends(t, entries, ids, task, id) {
          LastEntryHolds(t, entries, ids, task, id);
        }
      }
    }
  }

  lemma LastEntryHolds(t: Rules, entries: seq<(string, Scalar)>, ids: set<string>, task: string, id: string)
    requires entries != [] && ReadRoutes(t, entries, ids).Ok?
    requires var front := entries[..|entries| - 1];
             ReadRoutes(t, front, ids).Ok?
             && (Holds(ReadRoutes(t, front, ids).value, task, id) <==> Sends(t, front, ids, task, id))
    ensures Holds(ReadRoutes(t, entries, ids).value, task, id) <==> Sends(t, entries, ids, task, id)
  {
    var front, last := entries[..|entries| - 1], entries[|entries| - 1];
    RouteMeans(t, last, ids);
    var route := ReadRoute(t, last, ids).value;
    assert Routes(t, last, ids, route.0, route.1);
    if route.0 == task {
      if id == route.1 {
        assert LastRoute(t, entries, ids, |entries| - 1, task, id);
      }
      forall i | LastRoute(t, entries, ids, i, task, id) ensures id == route.1 {
        assert i == |entries| - 1;
      }
    } else {
      forall i ensures LastRoute(t, entries, ids, i, task, id) <==> LastRoute(t, front, ids, i, task, id) {
        OtherTaskKeepsRoute(t, entries, ids, i, task, id);
      }
    }
  }

  lemma OtherTaskKeepsRoute(t: Rules, entries: seq<(string, Scalar)>, ids: set<string>, i: int, task: string, id: string)
    requires entries != [] && t.fold(t.strip(entries[|entries| - 1].0)) != task
    ensures LastRoute(t, entries, ids, i, task, id) <==> LastRoute(t, entries[..|entries| - 1], ids, i, task, id)
  {
    var front := entries[..|entries| - 1];
    assert forall k | 0 <= k < |front| :: front[k] == entries[k];
    if LastRoute(t, front, ids, i, task, id) {
      forall k | i < k < |entries| ensures t.fold(t.strip(entries[k].0)) != task {
        assert k < |front| ==> front[k] == entries[k];
      }
    }
    if LastRoute(t, entries, ids, i, task, id) {
      assert i != |entries| - 1;
      forall k | i < k < |front| ensures t.fold(t.strip(front[k].0)) != task {
        assert front[k] == entries[k];
      }
    }
  }

  // ----- The whole configuration -----

  predicate HasId(profiles: seq<Profile>, id: string) {
    exists p <- profiles :: p.id == id
  }

  /** The default is the configured one; without one it is the profile named "default" if there is one, and otherwise the first. */
  lemma DefaultExactly(t: Rules, v: Option<Scalar>, profiles: seq<Profile>)
    requires profiles != []
    ensures var r := DefaultId(t, v, profiles);
            if v.None? || v.value.Null? then r == Ok(if HasId(profiles, "default") then "default" else profiles[0].id)
            else (r.Ok? <==> v.value.Str? && t.strip(v.value.s) != "" && HasId(profiles, t.strip(v.value.s)))
                 && (r.Ok? ==> r.value == t.strip(v.value.s))
  {
    forall id: string ensures id in Ids(profiles) <==> HasId(profiles, id) {
      if HasId(profiles, id) {
        var p :| p in profiles && p.id == id;
      }
    }
  }

  /** A repeated text field says the same as the profile it repeats. */
  predicate RepeatsText(v: Option<Scalar>, s: string) { v.None? || v.value == Str(s) }

  predicate RepeatsName(v: Option<Scalar>, name: Option<string>) {
    v.None? || (if name.Some? then v.value == Str(name.value) else v.value == Null)
  }

  /** Numbers are repeated by value; a truth value counts as one or zero. */
  predicate RepeatsNumber(v: Option<Scalar>, x: real) {
    v.None? || match v.value
               case Num(r) => r == x
               case Int(i) => i as real == x
               case Bool(b) => x == (if b then 1.0 else 0.0)
               case _ => false
  }

  /** Model fields next to a list of profiles are accepted exactly when they repeat the default profile. */
  lemma RepeatedFieldsMustAgree(fields: RawModel, p: Profile)
    ensures Agrees(fields, Mirror(p)) <==>
            && RepeatsText(fields.provider, p.provider) && RepeatsText(fields.model, p.model) && RepeatsText(fields.method_, p.method_)
            && RepeatsName(fields.apiKeyEnv, p.apiKeyEnv) && RepeatsName(fields.baseUrlEnv, p.baseUrlEnv)
            && RepeatsName(fields.optionsEnv, p.optionsEnv)
            && RepeatsNumber(fields.temperature, p.temperature) && RepeatsNumber(fields.maxTokens, p.maxTokens as real)
            && RepeatsNumber(fields.timeout, p.timeout)
  {
  }

  function FlagOr(v: Option<Scalar>, standard: bool): bool {
    if v.Some? && v.value.Bool? then v.value.b else standard
  }

  /** What an accepted configuration with a list of profiles says: its own switches, profiles and default, and repeated fields that agree. */
  lemma AcceptedConfigSaysWhatWasConfigured(t: Rules, raw: RawConfig)
    requires CreateConfig(t, raw).Ok?
    ensures var s := CreateConfig(t, raw).value;
            && !raw.unknownFields
            && (raw.enabled.Some? ==> raw.enabled.value.Bool?) && s.enabled == FlagOr(raw.enabled, false)
            && (raw.fallback.Some? ==> raw.fallback.value.Bool?) && s.fallback == FlagOr(raw.fallback, true)
            && (raw.profiles.Some? ==> ReadProfiles(Creating(t), raw.profiles.value) == Ok(s.profiles))
            && (raw.routes.None? || raw.routes.value.NullRoutes? ==> s.routes == map[])
            && (raw.routes.Some? && raw.routes.value.RouteMap? ==>
                  ReadRoutes(t, raw.routes.value.entries, Ids(s.profiles)) == Ok(s.routes))
            && (raw.routes.Some? ==> !raw.routes.value.NotRoutes?)
            && s.profiles != [] && DefaultId(t, raw.defaultId, s.profiles) == Ok(s.defaultId)
            && s.shown in s.profiles && s.shown.id == s.defaultId
            && (raw.profiles.Some? ==>
                  && RepeatsText(raw.fields.provider, s.shown.provider) && RepeatsText(raw.fields.model, s.shown.model)
                  && RepeatsNumber(raw.fields.temperature, s.shown.temperature) && RepeatsName(raw.fields.apiKeyEnv, s.shown.apiKeyEnv)
                  && RepeatsNumber(raw.fields.timeout, s.shown.timeout))
  {
    var s := CreateConfig(t, raw).value;
    if raw.profiles.Some? {
      RepeatedFieldsMustAgree(raw.fields, s.shown);
    }
  }

  /** An explicit identifier decides whatever the task is, and a task outside the protocol resolves to nothing. */
  lemma ResolutionPrecedence(t: Rules, raw: RawConfig, id: string, task: Option<Scalar>, name: string)
    requires Lawful(t) && CreateConfig(t, raw).Ok?
    ensures var s := CreateConfig(t, raw).value;
            && Resolve(t, s, Some(Str(id)), task) == Resolve(t, s, Some(Str(id)), None)
            && (t.fold(t.strip(name)) !in t.tables.tasks ==> Resolve(t, s, None, Some(Str(name))).Err?)
    ensures var r := Resolve(t, CreateConfig(t, raw).value, Some(Str(id)), task);
            r.Ok? ==> r.value in CreateConfig(t, raw).value.profiles && r.value.id == t.strip(id)
  {
  }
}
