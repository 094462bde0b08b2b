/**
 How a bot's request to create another becomes the bot to create: one step at a
 time, each resolving to a value or refusing. What an approval stores is the request
 with every default written out, to be planned again when the person says yes.
 */
module BotPlan {
  import opened Wrappers

  datatype Provider = Anthropic | Glm | OpenAi | ChatGpt | Xai

  datatype Effort = NoEffort | Minimal | Low | Medium | High | XHigh | Max | Ultra

  /** From the strictest to the loosest. */
  datatype Permission = Auto | Full

  datatype Model = Model(id: string, caption: string, standard: bool, levels: seq<Effort>)

  datatype Group = Group(id: string, name: string)

  datatype Bot = Bot(provider: Provider, model: Option<string>, effort: Option<Effort>, permission: Permission)

  /** A field that may be left out, or be `null`. */
  datatype Field<T> = LeftOut | Null | Named(value: T)

  datatype Input = Input(
    name: string,
    description: Option<string>,
    soul: Option<string>,
    instructions: Option<string>,
    provider: Option<Provider>,
    model: Field<string>,
    effort: Field<Effort>,
    permission: Option<Permission>,
    group: Option<string>)

  datatype Plan = Plan(
    name: string,
    description: Option<string>,
    groupId: Option<string>,
    provider: Provider,
    model: Option<string>,
    effort: Option<Effort>,
    permission: Permission,
    soul: Option<string>,
    instructions: Option<string>,
    groupName: Option<string>)

  datatype Refusal =
    | NoKeys
    | NoKeyFor(provider: Provider)
    | NoSuchModel(provider: Provider, named: string)
    | NoSuchEffort(provider: Provider, model: Option<string>, effort: Effort)
    | TooLoose(ceiling: Permission)
    | NoSuchGroup(group: string)

  /** The models offered, and how two spellings of a name are compared. */
  datatype Catalog = Catalog(models: Provider -> seq<Model>, trim: string -> string, lower: string -> string)

  /** What a plan depends on besides the request and its creator. */
  datatype Workspace = Workspace(catalog: Catalog, keyed: seq<Provider>, groups: seq<Group>)

  /** The first of `xs` that satisfies `p`. */
  function Find<T>(xs: seq<T>, p: T -> bool): Option<T> {
    if xs == [] then None
    else if p(xs[0]) then Some(xs[0])
    else Find(xs[1..], p)
  }

  lemma {:induction false} FindIsFirst<T>(xs: seq<T>, p: T -> bool)
    ensures match Find(xs, p)
            case None => forall i | 0 <= i < |xs| :: !p(xs[i])
            case Some(x) => exists i | 0 <= i < |xs| :: xs[i] == x && p(x) && forall j | 0 <= j < i :: !p(xs[j])
  {
    if xs != [] && !p(xs[0]) {
      FindIsFirst(xs[1..], p);
      match Find(xs[1..], p)
      case None =>
        forall i | 0 <= i < |xs| ensures !p(xs[i]) {
          assert i > 0 ==> xs[i] == xs[1..][i - 1];
        }
      case Some(x) =>
        var i :| 0 <= i < |xs| - 1 && xs[1..][i] == x && p(x) && forall j | 0 <= j < i :: !p(xs[1..][j]);
        forall j | 0 <= j < i + 1 ensures !p(xs[j]) {
          assert j > 0 ==> xs[j] == xs[1..][j - 1];
        }
        assert xs[i + 1] == x;
    }
  }

  // ---- The catalog ----

  function DefaultModel(c: Catalog, provider: Provider): Option<Model> {
    var models := c.models(provider);
    var found := Find(models, (m: Model) => m.standard);
    if found.Some? then found else if models == [] then None else Some(models[0])
  }

  function ModelOf(c: Catalog, provider: Provider, model: Option<string>): Option<Model> {
    if model.None? then DefaultModel(c, provider)
    else Find(c.models(provider), (m: Model) => m.id == model.value)
  }

  function LevelsOf(c: Catalog, provider: Provider, model: Option<string>): seq<Effort> {
    var m := ModelOf(c, provider, model);
    if m.Some? then m.value.levels else []
  }

  /** The effort a model records: the level when it offers it. */
  function EffortLevelFor(c: Catalog, provider: Provider, model: Option<string>, requested: Option<Effort>)
    : Option<Effort>
  {
    if requested.Some? && requested.value in LevelsOf(c, provider, model) then requested else None
  }

  predicate Matches(c: Catalog, m: Model, wanted: string) {
    c.lower(m.id) == wanted || c.lower(m.caption) == wanted
  }

  /** The row a name picks out, by id or label. */
  function ModelNamed(c: Catalog, provider: Provider, name: string): Option<Model> {
    var wanted := c.lower(c.trim(name));
    Find(c.models(provider), (m: Model) => Matches(c, m, wanted))
  }

  /** The group a name picks out, by id first. */
  function GroupNamed(c: Catalog, groups: seq<Group>, name: string): Option<Group> {
    var named := c.trim(name);
    var byId := Find(groups, (g: Group) => g.id == named);
    if byId.Some? then byId else Find(groups, (g: Group) => c.lower(g.name) == c.lower(named))
  }

  predicate Looser(a: Permission, b: Permission) {
    a.Full? && b.Auto?
  }

  // ---- Resolve or refuse ----

  function ResolveProvider(input: Input, creator: Bot, keyed: seq<Provider>): Result<Provider, Refusal> {
    var provider := if input.provider.Some? then input.provider.value else creator.provider;
    if provider in keyed then Success(provider)
    else if keyed == [] then Failure(NoKeys)
    else Failure(NoKeyFor(provider))
  }

  function ResolveModel(c: Catalog, input: Input, creator: Bot, provider: Provider): Result<Option<string>, Refusal> {
    match input.model
    case LeftOut => Success(if provider == creator.provider then creator.model else None)
    case Null => Success(None)
    case Named(name) =>
      var row := ModelNamed(c, provider, name);
      if row.Some? then Success(Some(row.value.id)) else Failure(NoSuchModel(provider, name))
  }

  function RequestedEffort(input: Input, creator: Bot, provider: Provider, model: Option<string>): Option<Effort> {
    match input.effort
    case LeftOut => if provider == creator.provider && model == creator.model then creator.effort else None
    case Null => None
    case Named(level) => Some(level)
  }

  function ResolveEffort(c: Catalog, input: Input, creator: Bot, provider: Provider, model: Option<string>)
    : Result<Option<Effort>, Refusal>
  {
    var effort := EffortLevelFor(c, provider, model, RequestedEffort(input, creator, provider, model));
    if input.effort.Named? && effort.None? then Failure(NoSuchEffort(provider, model, input.effort.value))
    else Success(effort)
  }

  function ResolvePermission(input: Input, creator: Bot): Result<Permission, Refusal> {
    if input.permission.None? then Success(if Looser(creator.permission, Auto) then Auto else creator.permission)
    else if Looser(input.permission.value, creator.permission) then Failure(TooLoose(creator.permission))
    else Success(input.permission.value)
  }

  function ResolveGroup(c: Catalog, input: Input, groups: seq<Group>): Result<Option<Group>, Refusal> {
    if input.group.None? || input.group.value == "" then Success(None)
    else
      var group := GroupNamed(c, groups, input.group.value);
      if group.Some? then Success(group) else Failure(NoSuchGroup(input.group.value))
  }

  function PlanBotCreation(w: Workspace, input: Input, creator: Bot): Result<Plan, Refusal> {
    var provider := ResolveProvider(input, creator, w.keyed);
    if provider.Failure? then Failure(provider.error) else
    var model := ResolveModel(w.catalog, input, creator, provider.value);
    if model.Failure? then Failure(model.error) else
    var effort := ResolveEffort(w.catalog, input, creator, provider.value, model.value);
    if effort.Failure? then Failure(effort.error) else
    var permission := ResolvePermission(input, creator);
    if permission.Failure? then Failure(permission.error) else
    var group := ResolveGroup(w.catalog, input, w.groups);
    if group.Failure? then Failure(group.error) else
    Success(Plan(input.name, input.description, IdOf(group.value), provider.value, model.value, effort.value,
            permission.value, input.soul, input.instructions, NameOf(group.value)))
  }

  function IdOf(group: Option<Group>): Option<string> {
    if group.Some? then Some(group.value.id) else None
  }

  function NameOf(group: Option<Group>): Option<string> {
    if group.Some? then Some(group.value.name) else None
  }

  function FieldOf<T>(value: Option<T>): Field<T> {
    if value.Some? then Named(value.value) else Null
  }

  /** The request with every default of its plan written out. */
  function ExplicitInput(input: Input, plan: Plan): Input {
    input.(provider := Some(plan.provider),
           model := FieldOf(plan.model),
           effort := FieldOf(plan.effort),
           permission := Some(plan.permission),
           group := if plan.groupId == Some("") then None else plan.groupId)
  }

  // ---- What a plan promises ----

  /**
   A bot that `creator` may create: a keyed provider, an offered or inherited model, an
   offered effort, no looser level, and a group of the owner's.
   */
  ghost predicate MayCreate(w: Workspace, creator: Bot, plan: Plan) {
    && plan.provider in w.keyed
    && (plan.model.None?
        || (plan.provider == creator.provider && plan.model == creator.model)
        || Lists(w.catalog, plan.provider, plan.model))
    && (plan.effort.Some? ==> plan.effort.value in LevelsOf(w.catalog, plan.provider, plan.model))
    && !Looser(plan.permission, creator.permission)
    && (plan.groupId.Some? <==> plan.groupName.Some?)
    && (plan.groupId.Some? ==> Group(plan.groupId.value, plan.groupName.value) in w.groups)
  }

  lemma {:induction false} PlansMayBeCreated(w: Workspace, input: Input, creator: Bot)
    ensures var r := PlanBotCreation(w, input, creator);
            r.Success? ==> MayCreate(w, creator, r.value)
  {
    var r := PlanBotCreation(w, input, creator);
    if r.Success? {
      if input.model.Named? {
        ModelNamedIs(w.catalog, r.value.provider, input.model.value);
      }
      if input.group.Some? {
        GroupNamedIs(w.catalog, w.groups, input.group.value);
      }
    }
  }

  lemma ModelNamedIs(c: Catalog, provider: Provider, name: string)
    ensures var wanted, models := c.lower(c.trim(name)), c.models(provider);
            match ModelNamed(c, provider, name)
            case None => forall m | m in models :: !Matches(c, m, wanted)
            case Some(m) => exists i | 0 <= i < |models| ::
              && models[i] == m && Matches(c, m, wanted)
              && forall j | 0 <= j < i :: !Matches(c, models[j], wanted)
  {
    var wanted := c.lower(c.trim(name));
    FindIsFirst(c.models(provider), (m: Model) => Matches(c, m, wanted));
  }

  lemma GroupNamedIs(c: Catalog, groups: seq<Group>, name: string)
    ensures match GroupNamed(c, groups, name)
            case None => forall g | g in groups :: !IsSpelled(c, g, c.trim(name))
            case Some(g) => g in groups && IsSpelled(c, g, c.trim(name))
  {
    var named := c.trim(name);
    FindIsFirst(groups, (g: Group) => g.id == named);
    FindIsFirst(groups, (g: Group) => c.lower(g.name) == c.lower(named));
  }

  predicate IsSpelled(c: Catalog, g: Group, named: string) {
    g.id == named || c.lower(g.name) == c.lower(named)
  }

  /**
   A plan is what was asked for: each thing named as named, and each left out as it is for the
   creator on the same engine, or the default. What a bot says of itself is carried over.
   */
  lemma {:induction false} PlansWhatWasAsked(w: Workspace, input: Input, creator: Bot)
    requires PlanBotCreation(w, input, creator).Success?
    ensures var plan := PlanBotCreation(w, input, creator).value;
            && plan.name == input.name && plan.description == input.description
            && plan.soul == input.soul && plan.instructions == input.instructions
            && plan.provider == (if input.provider.Some? then input.provider.value else creator.provider)
            && (match input.model
                case LeftOut => plan.model == if plan.provider == creator.provider then creator.model else None
                case Null => plan.model == None
                case Named(name) =>
                  exists m :: m in w.catalog.models(plan.provider) && plan.model == Some(m.id)
                              && Matches(w.catalog, m, w.catalog.lower(w.catalog.trim(name))))
            && (match input.effort
                case LeftOut =>
                  plan.effort.Some? ==>
                    plan.provider == creator.provider && plan.model == creator.model && plan.effort == creator.effort
                case Null => plan.effort == None
                case Named(level) => plan.effort == Some(level))
            && (match input.permission
                case None => plan.permission == Auto
                case Some(level) => plan.permission == level)
            && (input.group.None? || input.group.value == "" ==> plan.groupId == None && plan.groupName == None)
            && (input.group.Some? && input.group.value != "" ==>
                  && plan.groupId.Some? && plan.groupName.Some?
                  && var group := Group(plan.groupId.value, plan.groupName.value);
                     IsSpelled(w.catalog, group, w.catalog.trim(input.group.value)))
  {
    if input.model.Named? {
      ModelNamedIs(w.catalog, PlanBotCreation(w, input, creator).value.provider, input.model.value);
    }
    if input.group.Some? {
      GroupNamedIs(w.catalog, w.groups, input.group.value);
    }
  }

  /** An effort left out is the creator's, on the same engine, whenever the model offers it. */
  lemma {:induction false} EffortIsInherited(w: Workspace, input: Input, creator: Bot, level: Effort)
    requires PlanBotCreation(w, input, creator).Success? && input.effort.LeftOut? && creator.effort == Some(level)
    requires var plan := PlanBotCreation(w, input, creator).value;
             plan.provider == creator.provider && plan.model == creator.model
    ensures var plan := PlanBotCreation(w, input, creator).value;
            plan.effort == Some(level) <==> level in LevelsOf(w.catalog, plan.provider, plan.model)
  {
  }

  /** A model's row: the one with its id, and for none named the first marked as default, or else the first. */
  lemma {:induction false} ModelOfIs(c: Catalog, provider: Provider, model: Option<string>)
    ensures var models := c.models(provider);
            match ModelOf(c, provider, model)
            case None =>
              if model.None? then models == [] else forall m | m in models :: m.id != model.value
            case Some(m) =>
              exists i | 0 <= i < |models| :: models[i] == m
                && if model.Some? then m.id == model.value && forall j | 0 <= j < i :: models[j].id != model.value
                   else (m.standard && forall j | 0 <= j < i :: !models[j].standard)
                        || (i == 0 && forall j | 0 <= j < |models| :: !models[j].standard)
  {
    var models := c.models(provider);
    if model.None? {
      FindIsFirst(models, (m: Model) => m.standard);
    } else {
      FindIsFirst(models, (m: Model) => m.id == model.value);
    }
  }

  /** Something a request names that cannot be had. */
  ghost predicate Unmet(w: Workspace, input: Input, creator: Bot) {
    var c := w.catalog;
    var provider := if input.provider.Some? then input.provider.value else creator.provider;
    || provider !in w.keyed
    || (input.model.Named?
        && forall m | m in c.models(provider) :: !Matches(c, m, c.lower(c.trim(input.model.value))))
    || (input.effort.Named?
        && var model := ResolveModel(c, input, creator, provider);
           model.Success? && input.effort.value !in LevelsOf(c, provider, model.value))
    || (input.permission == Some(Full) && creator.permission == Auto)
    || (input.group.Some? && input.group.value != ""
        && forall g | g in w.groups :: !IsSpelled(c, g, c.trim(input.group.value)))
  }

  /**
   A request is refused exactly when something it names cannot be had; nothing it leaves
   out refuses it but a creator's provider that has no key.
   */
  lemma {:induction false} RefusedExactlyWhenUnmet(w: Workspace, input: Input, creator: Bot)
    ensures PlanBotCreation(w, input, creator).Failure? <==> Unmet(w, input, creator)
  {
    var provider := if input.provider.Some? then input.provider.value else creator.provider;
    if input.model.Named? {
      ModelNamedIs(w.catalog, provider, input.model.value);
    }
    if input.group.Some? {
      GroupNamedIs(w.catalog, w.groups, input.group.value);
    }
  }

  // ---- Planning again ----

  /** The first row spelled like the stored id, by id or label, bears that very id. */
  ghost predicate ModelReadsBack(c: Catalog, provider: Provider, model: Option<string>) {
    model.Some? ==>
      var models, wanted := c.models(provider), c.lower(c.trim(model.value));
      exists i | 0 <= i < |models| ::
        && models[i].id == model.value && Matches(c, models[i], wanted)
        && forall j | 0 <= j < i :: !Matches(c, models[j], wanted)
  }

  /**
   The stored group is there under its name, first with its id, or, when no group has
   the trimmed id, first whose name is spelled like it.
   */
  ghost predicate GroupReadsBack(c: Catalog, groups: seq<Group>, id: Option<string>, name: Option<string>) {
    id.Some? ==>
      && id.value != "" && name.Some?
      && var named := c.trim(id.value);
         exists i | 0 <= i < |groups| ::
           && groups[i] == Group(id.value, name.value)
           && if forall g | g in groups :: g.id != named then
                c.lower(name.value) == c.lower(named)
                && forall j | 0 <= j < i :: c.lower(groups[j].name) != c.lower(named)
              else id.value == named && forall j | 0 <= j < i :: groups[j].id != named
  }

  lemma ModelReadsBackIs(c: Catalog, provider: Provider, model: string)
    ensures ModelReadsBack(c, provider, Some(model))
       <==> var row := ModelNamed(c, provider, model); row.Some? && row.value.id == model
  {
    var models, wanted := c.models(provider), c.lower(c.trim(model));
    FindIsFirst(models, (m: Model) => Matches(c, m, wanted));
  }

  lemma GroupReadsBackIs(c: Catalog, groups: seq<Group>, id: string, name: string)
    requires id != ""
    ensures GroupReadsBack(c, groups, Some(id), Some(name)) <==> GroupNamed(c, groups, id) == Some(Group(id, name))
  {
    var named := c.trim(id);
    FindIsFirst(groups, (g: Group) => g.id == named);
    FindIsFirst(groups, (g: Group) => c.lower(g.name) == c.lower(named));
  }

  /**
   What an approval stores plans to the very bot its card showed, whatever the creator's
   engine and the workspace have become, and whatever catalog a new build brought, exactly
   when the provider is still keyed, the effort still offered, the level still allowed, and
   the model's and the group's ids still name them.
   */
  lemma {:induction false} ReplanIsTheSame(w: Workspace, input: Input, creator: Bot, w': Workspace, creator': Bot)
    requires PlanBotCreation(w, input, creator).Success?
    ensures var plan := PlanBotCreation(w, input, creator).value;
            PlanBotCreation(w', ExplicitInput(input, plan), creator') == Success(plan)
            <==> && plan.provider in w'.keyed
                 && ModelReadsBack(w'.catalog, plan.provider, plan.model)
                 && (plan.effort.Some? ==> plan.effort.value in LevelsOf(w'.catalog, plan.provider, plan.model))
                 && !Looser(plan.permission, creator'.permission)
                 && GroupReadsBack(w'.catalog, w'.groups, plan.groupId, plan.groupName)
  {
    var c', plan := w'.catalog, PlanBotCreation(w, input, creator).value;
    assert plan.groupId.Some? <==> plan.groupName.Some?;
    var e := ExplicitInput(input, plan);
    if plan.model.Some? {
      ModelReadsBackIs(c', plan.provider, plan.model.value);
    }
    if plan.groupId.Some? && plan.groupId.value != "" {
      GroupReadsBackIs(c', w'.groups, plan.groupId.value, plan.groupName.value);
    }
    assert ResolveModel(c', e, creator', plan.provider) == Success(plan.model)
      <==> ModelReadsBack(c', plan.provider, plan.model);
    assert ResolveEffort(c', e, creator', plan.provider, plan.model) == Success(plan.effort)
      <==> (plan.effort.Some? ==> plan.effort.value in LevelsOf(c', plan.provider, plan.model));
    assert ResolvePermission(e, creator').Success? <==> !Looser(plan.permission, creator'.permission);
  }

  /** No id is a spelling of another row: each is trimmed, and no row before it bears it as id or label. */
  ghost predicate IsClear(c: Catalog, provider: Provider) {
    forall j | 0 <= j < |c.models(provider)| ::
      var id := c.models(provider)[j].id;
      c.trim(id) == id && forall i | 0 <= i < j :: !Matches(c, c.models(provider)[i], c.lower(id))
  }

  predicate Lists(c: Catalog, provider: Provider, model: Option<string>) {
    model.Some? ==> exists m :: m in c.models(provider) && m.id == model.value
  }

  /** In a clear catalog, the ids that read back are exactly those it lists. */
  lemma {:induction false} ListedReadsBack(c: Catalog, provider: Provider, model: Option<string>)
    requires IsClear(c, provider)
    ensures ModelReadsBack(c, provider, model) <==> Lists(c, provider, model)
  {
    if model.Some? {
      var wanted, models := c.lower(c.trim(model.value)), c.models(provider);
      if m :| m in models && m.id == model.value {
        var j :| 0 <= j < |models| && models[j] == m;
        assert Matches(c, models[j], wanted);
      }
    }
  }

  /** Ids that are trimmed, not empty, one a group, and no group's name. */
  ghost predicate GroupsAreClear(c: Catalog, groups: seq<Group>, id: string) {
    && id != "" && c.trim(id) == id
    && (forall i, j | 0 <= i < j < |groups| :: groups[i].id != groups[j].id)
    && (forall g | g in groups :: c.lower(g.name) != c.lower(id))
  }

  /** The stored ids of a plan are their own row's, or nobody's. */
  ghost predicate IsUnmistakable(w: Workspace, plan: Plan) {
    && IsClear(w.catalog, plan.provider)
    && (Lists(w.catalog, plan.provider, plan.model)
        || ModelNamed(w.catalog, plan.provider, plan.model.value).None?)
    && (plan.groupId.Some? ==> GroupsAreClear(w.catalog, w.groups, plan.groupId.value))
  }

  /** Something a plan shows that can no longer be had. */
  ghost predicate Lapsed(w: Workspace, creator: Bot, plan: Plan) {
    || plan.provider !in w.keyed
    || !Lists(w.catalog, plan.provider, plan.model)
    || (plan.effort.Some? && plan.effort.value !in LevelsOf(w.catalog, plan.provider, plan.model))
    || Looser(plan.permission, creator.permission)
    || (plan.groupId.Some? && forall g | g in w.groups :: g.id != plan.groupId.value)
  }

  /**
   When the catalog and the groups are clear, and the model is listed or at least no
   spelling of a listed one (a retired one may be the creator's still), an approval is never
   spent on another bot: planned again it is the bot that was shown, in the same group, or
   it is refused because something it showed has lapsed.
   */
  lemma {:induction false} NeverAnotherBot(w: Workspace, input: Input, creator: Bot, w': Workspace, creator': Bot)
    requires PlanBotCreation(w, input, creator).Success?
    requires IsUnmistakable(w', PlanBotCreation(w, input, creator).value)
    ensures var plan := PlanBotCreation(w, input, creator).value;
            match PlanBotCreation(w', ExplicitInput(input, plan), creator')
            case Failure(_) => Lapsed(w', creator', plan)
            case Success(again) => again.(groupName := plan.groupName) == plan && !Lapsed(w', creator', plan)
  {
    var c', plan := w'.catalog, PlanBotCreation(w, input, creator).value;
    var e := ExplicitInput(input, plan);
    assert ResolveEffort(c', e, creator', plan.provider, plan.model)
        == if plan.effort.Some? && plan.effort.value !in LevelsOf(c', plan.provider, plan.model) then
             Failure(NoSuchEffort(plan.provider, plan.model, plan.effort.value))
           else Success(plan.effort);
    StoredModel(c', e, creator', plan);
    if plan.groupId.Some? {
      StoredGroup(c', w'.groups, plan.groupId.value);
    }
    assert plan.groupId.Some? <==> plan.groupName.Some?;
  }

  lemma StoredModel(c: Catalog, e: Input, creator: Bot, plan: Plan)
    requires IsClear(c, plan.provider) && e.model == FieldOf(plan.model)
    requires Lists(c, plan.provider, plan.model) || ModelNamed(c, plan.provider, plan.model.value).None?
    ensures var r := ResolveModel(c, e, creator, plan.provider);
            if Lists(c, plan.provider, plan.model) then r == Success(plan.model) else r.Failure?
  {
    ListedReadsBack(c, plan.provider, plan.model);
    if plan.model.Some? {
      ModelReadsBackIs(c, plan.provider, plan.model.value);
    }
  }

  lemma StoredGroup(c: Catalog, groups: seq<Group>, id: string)
    requires GroupsAreClear(c, groups, id)
    ensures match GroupNamed(c, groups, id)
            case None => forall g | g in groups :: g.id != id
            case Some(g) => g in groups && g.id == id
  {
    GroupNamedIs(c, groups, id);
  }

  // ---- How an approval can be spent on another bot ----

  /**
   Between the card and the yes the group is deleted, and another is called as its id is
   spelled: the bot is made in that other group, whatever the catalog.
   */
  lemma {:induction false} DeletedGroupMakesAnother(c: Catalog, creator: Bot)
    requires c.trim("Research") == "Research" && c.trim("g-1") == "g-1"
    ensures var w := Workspace(c, [creator.provider], [Group("g-1", "Research")]);
            var w' := Workspace(c, [creator.provider], [Group("g-2", "g-1")]);
            var input := Input("Scout", None, None, None, None, Null, Null, None, Some("Research"));
            && PlanBotCreation(w, input, creator).Success?
            && var plan := PlanBotCreation(w, input, creator).value;
               var again := PlanBotCreation(w', ExplicitInput(input, plan), creator);
               && again.Success? && plan.groupId == Some("g-1") && again.value.groupId == Some("g-2")
               && again.value.name == plan.name
  {
    var before, after := [Group("g-1", "Research")], [Group("g-2", "g-1")];
    GroupNamedIs(c, before, "Research");
    GroupNamedIs(c, after, "g-1");
    assert before[0] in before && after[0] in after;
    assert IsSpelled(c, before[0], "Research") && IsSpelled(c, after[0], "g-1");
  }

  /**
   Between the card and the yes a new build gives an earlier row the stored id as its
   label: another model is taken.
   */
  lemma {:induction false} RebuiltCatalogMakesAnother(w: Workspace, w': Workspace, input: Input, creator: Bot, m: Model)
    requires PlanBotCreation(w, input, creator).Success?
    requires var plan := PlanBotCreation(w, input, creator).value;
             && plan.model.Some? && plan.provider in w'.keyed && plan.effort.None? && plan.groupId.None?
             && var models := w'.catalog.models(plan.provider);
                && models != [] && models[0] == m && m.id != plan.model.value
                && Matches(w'.catalog, m, w'.catalog.lower(w'.catalog.trim(plan.model.value)))
    ensures var plan := PlanBotCreation(w, input, creator).value;
            PlanBotCreation(w', ExplicitInput(input, plan), creator) == Success(plan.(model := Some(m.id)))
  {
    var plan := PlanBotCreation(w, input, creator).value;
    assert ModelNamed(w'.catalog, plan.provider, plan.model.value) == Some(m);
    PlansMayBeCreated(w, input, creator);
  }
}
