/** The example context resolvers, completions and conditions that `CommandManager`
    registers. Each registered lambda becomes a pure function of the issuer, the
    not yet consumed argument tokens and, where the lambda asks the server, a
    `Server` record of lookups. */
module CommandManager {
  import opened Wrappers
  import opened ConfigValueTypes
  import opened CommandErrors

  /** `java.util.UUID`: two 64-bit halves. */
  datatype Uuid = Uuid(mostSignificant: bv64, leastSignificant: bv64)

  datatype World = World(name: string)

  /** A `ConfigurationSection` of the plugin's configuration, named by its path. */
  datatype Section = Section(path: string)

  /** The player attributes the lambdas read. `maxHealth` is the value of the
      GENERIC_MAX_HEALTH attribute, `None` when the player has no such attribute. */
  datatype Player = Player(
    name: string,
    uuid: Uuid,
    world: World,
    isOp: bool,
    health: real,
    maxHealth: Option<real>)

  /** Who sent the command: a player, or a sender that is not one (the console). */
  datatype Issuer = PlayerIssuer(player: Player) | ConsoleIssuer

  /** The server-side lookups the lambdas call, whose rules are not part of this
      model: `Bukkit.getWorlds()`, `Bukkit.getWorld(name)`,
      `getConfig().getConfigurationSection(path)` and
      `ACFUtil.getEnumFromName(values(), name)`. `None` is a null argument or result.
      A configuration-section lookup is only ever given a path: Bukkit refuses a
      null one before looking anything up. */
  datatype Server = Server(
    worlds: seq<World>,
    getWorld: string -> Option<World>,
    configSection: string -> Option<Section>,
    enumFromName: Option<string> -> Option<ConfigValueType>)

  // ---------------------------------------------------------------------------
  // The argument cursor

  /** `getFirstArg()`: the next unconsumed token, or null when none is left. */
  function PeekFirst(args: seq<string>): (r: Option<string>)
    ensures r.Some? <==> |args| > 0
    ensures r.Some? ==> r.value == args[0]
  {
    if |args| == 0 then None else Some(args[0])
  }

  /** `popFirstArg()`: the next unconsumed token (null when none is left) and the
      tokens that remain after removing it. */
  function PopFirst(args: seq<string>): (r: (Option<string>, seq<string>))
    ensures r.0 == PeekFirst(args)
    ensures |args| > 0 ==> r.1 == args[1..]
    ensures |args| == 0 ==> r.1 == []
  {
    if |args| == 0 then (None, []) else (Some(args[0]), args[1..])
  }

  /** What a context resolver yields: the parameter value with the tokens left for
      the next parameter, or the failure it threw. */
  datatype Resolution<T> = Resolved(value: T, rest: seq<string>) | Rejected(error: CommandError)

  /** How a resolver was registered, which fixes how many tokens it may take:
      `registerContext` (consuming), `registerIssuerOnlyContext`,
      `registerIssuerAwareContext`. */
  datatype ResolverKind = Consuming | IssuerOnly | IssuerAware

  /** The token discipline of each kind. A consuming resolver removes exactly one
      token (none if none is left), an issuer-only one never removes a token, and
      an issuer-aware one removes the next token exactly when there is one. */
  predicate Obeys<T>(kind: ResolverKind, args: seq<string>, r: Resolution<T>) {
    r.Resolved? ==>
      match kind
      case Consuming => r.rest == if |args| == 0 then [] else args[1..]
      case IssuerOnly => r.rest == args
      case IssuerAware => r.rest == if |args| == 0 then args else args[1..]
  }

  // ---------------------------------------------------------------------------
  // Context resolvers

  const NullPathMessage := "Path cannot be null"

  /** The ConfigurationSection context: pops one token and looks the section up by
      it. With no token left the popped path is null, which the lookup refuses. */
  function ResolveSection(server: Server, args: seq<string>): (r: Resolution<Option<Section>>)
    ensures Obeys(Consuming, args, r)
    ensures r.Resolved? <==> |args| > 0
    ensures r.Resolved? ==> r.value == server.configSection(args[0])
    ensures |args| == 0 ==> r == Rejected(IllegalArgument(NullPathMessage))
  {
    var (path, rest) := PopFirst(args);
    match path
    case None => Rejected(IllegalArgument(NullPathMessage))
    case Some(p) => Resolved(server.configSection(p), rest)
  }

  const RejectedNameMessage := "Hoes can't use this command. Smh my head..."

  /** The issuer-only String context: the issuing player's name, except that the
      player named "Kuwa_" is refused. */
  function ResolvePlayerName(issuer: Issuer, args: seq<string>): (r: Resolution<string>)
    ensures Obeys(IssuerOnly, args, r)
    ensures r.Resolved? <==> issuer.PlayerIssuer? && issuer.player.name != "Kuwa_"
    ensures r.Resolved? ==> r.value == issuer.player.name
    ensures issuer.ConsoleIssuer? ==> r == Rejected(NullPlayer)
    ensures issuer.PlayerIssuer? && issuer.player.name == "Kuwa_" ==> r == Rejected(InvalidArgument(RejectedNameMessage))
  {
    match issuer
    case ConsoleIssuer => Rejected(NullPlayer)
    case PlayerIssuer(p) =>
      if p.name == "Kuwa_" then Rejected(InvalidArgument(RejectedNameMessage)) else Resolved(p.name, args)
  }

  /** The issuer-aware World context: the world named by the next token when there
      is one (consumed), otherwise the issuing player's own world. */
  function ResolveWorld(server: Server, issuer: Issuer, args: seq<string>): (r: Resolution<Option<World>>)
    ensures Obeys(IssuerAware, args, r)
    ensures |args| > 0 ==> r == Resolved(server.getWorld(args[0]), args[1..])
    ensures |args| == 0 ==> r == (if issuer.PlayerIssuer? then Resolved(Some(issuer.player.world), args) else Rejected(NullPlayer))
  {
    if PeekFirst(args).Some? then
      var (worldName, rest) := PopFirst(args);
      Resolved(server.getWorld(worldName.value), rest)
    else
      match issuer
      case ConsoleIssuer => Rejected(NullPlayer)
      case PlayerIssuer(p) => Resolved(Some(p.world), args)
  }

  /** The issuer-only UUID context: the issuing player's unique id. */
  function ResolveUuid(issuer: Issuer, args: seq<string>): (r: Resolution<Uuid>)
    ensures Obeys(IssuerOnly, args, r)
    ensures r.Resolved? <==> issuer.PlayerIssuer?
    ensures r.Resolved? ==> r.value == issuer.player.uuid
    ensures issuer.ConsoleIssuer? ==> r == Rejected(NullPlayer)
  {
    match issuer
    case ConsoleIssuer => Rejected(NullPlayer)
    case PlayerIssuer(p) => Resolved(p.uuid, args)
  }

  /** The ConfigValueType context: pops one token and looks the constant up by name. */
  function ResolveValueType(server: Server, args: seq<string>): (r: Resolution<Option<ConfigValueType>>)
    ensures r.Resolved? && Obeys(Consuming, args, r)
    ensures r.value == server.enumFromName(PeekFirst(args))
  {
    var (name, rest) := PopFirst(args);
    Resolved(server.enumFromName(name), rest)
  }

  /** An issuer-aware resolver given a token behaves as the consuming resolver
      would on that token; without one it falls back on the issuer. */
  lemma WorldResolverIsConsumingWhenGivenToken(server: Server, issuer: Issuer, console: Issuer, args: seq<string>)
    requires |args| > 0
    requires console.ConsoleIssuer?
    ensures ResolveWorld(server, issuer, args) == ResolveWorld(server, console, args)
    ensures Obeys(Consuming, args, ResolveWorld(server, issuer, args))
  {
  }

  /** Two consuming resolvers in a row read the first and second tokens and leave
      the rest: no token is skipped or read twice. */
  lemma ConsumingResolversReadInOrder(server: Server, args: seq<string>)
    requires |args| >= 2
    ensures var first := ResolveValueType(server, args);
      var second := ResolveSection(server, first.rest);
      first.value == server.enumFromName(Some(args[0]))
      && second.value == server.configSection(args[1])
      && second.rest == args[2..]
  {
  }

  // ---------------------------------------------------------------------------
  // Completions

  const Weekdays: seq<string> := ["Monday", "Tuesday", "Wednesday", "Thursday", "Friday"]

  /** The "config-values" completion: the enum constants' names in declaration order. */
  function ConfigValueNames(): (names: seq<string>)
    ensures |names| == |AllTypes|
    ensures forall i :: 0 <= i < |names| ==> names[i] == Name(AllTypes[i])
  {
    seq(|AllTypes|, i requires 0 <= i < |AllTypes| => Name(AllTypes[i]))
  }

  /** The "worlds" completion: the name of every loaded world, in the server's order. */
  function WorldNames(worlds: seq<World>): (names: seq<string>)
    ensures |names| == |worlds|
    ensures forall i :: 0 <= i < |worlds| ==> names[i] == worlds[i].name
  {
    if |worlds| == 0 then [] else [worlds[0].name] + WorldNames(worlds[1..])
  }

  /** The completions registered under each key; `None` for a key nothing was
      registered under. "worlds" is recomputed from the server on each request. */
  function Completion(server: Server, key: string): (r: Option<seq<string>>)
    ensures r.Some? <==> key in {"worlds", "weekdays", "config-values"}
    ensures key == "worlds" ==> r == Some(WorldNames(server.worlds))
    ensures key == "weekdays" ==> r == Some(Weekdays)
    ensures key == "config-values" ==> r == Some(ConfigValueNames())
  {
    if key == "worlds" then Some(WorldNames(server.worlds))
    else if key == "weekdays" then Some(Weekdays)
    else if key == "config-values" then Some(ConfigValueNames())
    else None
  }

  /** The static completions are exactly these literal lists, and every
      "config-values" entry names a different constant. */
  lemma StaticCompletions(server: Server)
    ensures Completion(server, "config-values") == Some(["DELETE", "BOOLEAN", "STRING", "INTEGER", "DOUBLE", "FLOAT"])
    ensures Completion(server, "weekdays") == Some(["Monday", "Tuesday", "Wednesday", "Thursday", "Friday"])
    ensures forall i, j :: 0 <= i < j < |ConfigValueNames()| ==> ConfigValueNames()[i] != ConfigValueNames()[j]
  {
    DeclarationOrder();
    var names := ConfigValueNames();
    assert names[0] == "DELETE" && names[1] == "BOOLEAN" && names[2] == "STRING";
    assert names[3] == "INTEGER" && names[4] == "DOUBLE" && names[5] == "FLOAT";
    assert names == ["DELETE", "BOOLEAN", "STRING", "INTEGER", "DOUBLE", "FLOAT"];
  }

  // ---------------------------------------------------------------------------
  // Conditions

  const PlayersOnlyMessage := "Only players can use this command!"
  const NotBelowHalfMessage := "You must be below half health to use this command!"

  /** The maximum health the condition compares against: the attribute's value,
      or 20 when the player has no max-health attribute. */
  function MaxHealth(p: Player): (m: real)
    ensures p.maxHealth.None? ==> m == 20.0
    ensures p.maxHealth.Some? ==> m == p.maxHealth.value
  {
    p.maxHealth.GetOr(20.0)
  }

  /** The "belowHalfHealth" command condition: only players pass, and only while
      their health is at most half their maximum. The player check comes first. */
  function BelowHalfHealth(issuer: Issuer): (r: Outcome<CommandError>)
    ensures r.Pass? <==> issuer.PlayerIssuer? && issuer.player.health <= MaxHealth(issuer.player) / 2.0
    ensures issuer.ConsoleIssuer? ==> r == Fail(ConditionFailed(PlayersOnlyMessage))
    ensures issuer.PlayerIssuer? && r.Fail? ==> r == Fail(ConditionFailed(NotBelowHalfMessage))
  {
    match issuer
    case ConsoleIssuer => Fail(ConditionFailed(PlayersOnlyMessage))
    case PlayerIssuer(p) =>
      if p.health > MaxHealth(p) / 2.0 then Fail(ConditionFailed(NotBelowHalfMessage)) else Pass
  }

  /** Losing health never turns a passing "belowHalfHealth" check into a failing one. */
  lemma BelowHalfHealthMonotone(p: Player, lower: real)
    requires BelowHalfHealth(PlayerIssuer(p)).Pass?
    requires lower <= p.health
    ensures BelowHalfHealth(PlayerIssuer(p.(health := lower))).Pass?
  {
  }

  /** With the default maximum of 20, health 15 fails and health 5 passes. */
  lemma BelowHalfHealthScenario(p: Player)
    requires p.maxHealth.None?
    ensures BelowHalfHealth(PlayerIssuer(p.(health := 15.0))) == Fail(ConditionFailed(NotBelowHalfMessage))
    ensures BelowHalfHealth(PlayerIssuer(p.(health := 5.0))) == Pass
  {
  }

  /** The "op" parameter condition as the Java code registers it. The lambda
      `player -> player.isOp()` is given to ACF as a parameter condition, whose
      method returns nothing, so the boolean is computed and dropped and no
      exception is ever thrown: the condition passes for every player. */
  function OpConditionAsWritten(issuer: Issuer, player: Player): (r: Outcome<CommandError>)
    ensures r.Pass?
  {
    Pass
  }

  const NotOpMessage := "You must be an operator to use this command!"

  /** The "op" parameter condition as intended: it passes exactly when the player
      given as the parameter is an operator, whoever issued the command. */
  function OpCondition(issuer: Issuer, player: Player): (r: Outcome<CommandError>)
    ensures r.Pass? <==> player.isOp
    ensures r.Fail? ==> r.error.ConditionFailed?
  {
    if player.isOp then Pass else Fail(ConditionFailed(NotOpMessage))
  }

  /** A player who is not an operator passes the condition as written but fails
      the intended one. */
  lemma OpConditionAdmitsNonOperator(issuer: Issuer, player: Player)
    requires !player.isOp
    ensures OpConditionAsWritten(issuer, player) == Pass
    ensures OpCondition(issuer, player).Fail?
  {
  }
}
