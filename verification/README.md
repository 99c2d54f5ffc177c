# ACF example plugin: config values, resolvers, completions and conditions

A Dafny model of the logic in the example plugin for the ACF command framework
(Annotation Command Framework) that does not depend on ACF's own dispatch engine.
It covers three parts:

- **`ConfigValueType`** (`ConfigValueTypes` module, with `Decimal` for Java's `int` text
  conversions). The enum's six constants are DELETE, BOOLEAN, STRING, INTEGER, DOUBLE and FLOAT.
  Each one carries a converter from an optional input string to a configuration value.
  `Convert` is a total function: a thrown exception becomes `Failure`.
  - DELETE yields null.
  - BOOLEAN is `Boolean.parseBoolean`.
  - STRING is the identity.
  - INTEGER is `Integer.valueOf`: an optional sign, then decimal digits, within the 32-bit range.
  - DOUBLE and FLOAT use parse functions that this model passes in but does not define.
- **The `edit-value` sub-command** (`ConfigCommand` module). It rejects a missing input
  unless the type is DELETE, then converts the input. On success it writes the value at
  `path` in a `map<string, Value>` configuration and sends the player
  "Successfully set the configuration value to " followed by the value's text.
- **`CommandManager`'s lambdas** (`CommandManager` module).
  - Context resolvers are pure functions over the issuer and the list of unconsumed argument
    tokens. Each returns the value and the remaining tokens, or the failure it threw.
  - The three completion lists.
  - The "belowHalfHealth" command condition and the "op" parameter condition.

  Server calls (`Bukkit.getWorld`, `Bukkit.getWorlds`, `getConfigurationSection`,
  `ACFUtil.getEnumFromName`) are fields of a `Server` record that the model passes in.

An issuer is either a player (name, UUID, world, operator flag, health and optional
max-health attribute) or a sender that is not a player. ACF's `getPlayer()` is null for a
sender that is not a player. So the resolvers that dereference it (the player-name,
fallback-world and UUID contexts) fail with `NullPlayer` for such a sender.

Java's `equalsIgnoreCase` folds case per character. Compared against "true", ASCII folding
gives the same answer: no character other than t, r, u, e and their capitals folds onto
those letters. So `ParseBoolean` uses ASCII folding.

## Model

| member | source | states |
|---|---|---|
| `ConfigValueTypes.Convert` | src/main/java/net/jingles/acf/ConfigValueType.java:11-26 | DELETE yields null for any input, present or absent. STRING returns its input unchanged (null for null). BOOLEAN always succeeds, with true exactly when the input equals "true" ignoring case. INTEGER succeeds exactly when the input parses as a 32-bit decimal (see the `Decimal` rows), with that value; otherwise, null included, it is a number-format failure. DOUBLE and FLOAT with an input yield the passed-in parse's bits, or a number-format failure where that parse fails. With no input, only DELETE, BOOLEAN and STRING succeed: INTEGER gives NumberFormatException and DOUBLE/FLOAT give NullPointerException. Every result has its constant's kind. |
| `ConfigValueTypes.ParseBoolean` | src/main/java/net/jingles/acf/ConfigValueType.java:12 | `Boolean.parseBoolean` is true exactly for a present four-letter input spelling t, r, u, e with each letter in either case, and false for everything else, null included. |
| `ConfigValueTypes.Render` | src/main/java/net/jingles/acf/ConfigCommand.java:78 | The text a value contributes to the message: "null" for null, a string as itself, a boolean as exactly "true" or "false" (which `Boolean.parseBoolean` reads back to it), an integer in canonical form that parses back to it, and a double or float as the passed-in `String.valueOf` text of its bits. |
| `ConfigValueTypes.DeclarationOrder` | src/main/java/net/jingles/acf/ConfigValueType.java:9-16 | There are exactly six constants. `values()` lists each one once, at its ordinal, in declaration order. Distinct constants have distinct names. |
| `ConfigValueTypes.ReportedTextReconverts` | src/main/java/net/jingles/acf/ConfigValueType.java:12-14 | For BOOLEAN, STRING and INTEGER, the text form of a converted value converts back to the same value. |
| `Decimal.ParseInt` | src/main/java/net/jingles/acf/ConfigValueType.java:14 | `Integer.valueOf` never yields a value outside the 32-bit range. It rejects the empty string and any text without a digit. |
| `Decimal.ParseIntAcceptsSignedDigits` | src/main/java/net/jingles/acf/ConfigValueType.java:14 | Any sign ("", "+" or "-") followed by one or more digits parses to its signed value when that is within the 32-bit range (leading zeros allowed, "-0" is 0), and is rejected otherwise. |
| `Decimal.ParseIntOnlySignedDigits` | src/main/java/net/jingles/acf/ConfigValueType.java:14 | Whatever parses is an optional sign followed by digits only, and parses to their signed value. So text with any other character, a lone sign or two signs is a number-format failure. |
| `Decimal.IntToString` | src/main/java/net/jingles/acf/ConfigCommand.java:78 | An integer is printed canonically, with a minus sign exactly when it is negative, followed by the digits of its magnitude. |
| `Decimal.NatToDigits` | src/main/java/net/jingles/acf/ConfigCommand.java:78 | The digits Java prints for a number have no redundant leading zero and read back as that number. |
| `Decimal.IntToStringRoundTrip` | src/main/java/net/jingles/acf/ConfigValueType.java:14 | Every 32-bit integer, printed as Java prints it, parses back to itself, and the printed form is canonical. |
| `Decimal.CanonicalDigitsRoundTrip` | src/main/java/net/jingles/acf/ConfigValueType.java:14 | A digit string with no redundant leading zero is exactly the printed form of the number it denotes. |
| `Decimal.ParseIntCanonicalRoundTrip` | src/main/java/net/jingles/acf/ConfigValueType.java:14 | Parse a canonical integer spelling, then print the result: this gives back the same spelling. Together with the previous rows, parsing and printing are mutually inverse on canonical spellings. |
| `ConfigCommand.SuccessMessage` | src/main/java/net/jingles/acf/ConfigCommand.java:78 | The success message is the fixed prefix followed by exactly the value's text. |
| `ConfigCommand.EditValue` | src/main/java/net/jingles/acf/ConfigCommand.java:71-78 | The command succeeds exactly when the input is present (or the type is DELETE) and the conversion succeeds. A missing input for another type fails with the invalid-argument message. A conversion exception fails before anything is written. On any failure the configuration is unchanged and nothing is sent. On success, only `path` changes and it holds the converted value, and exactly one message is sent, reporting that same value. DELETE always succeeds and writes null. STRING writes its input. |
| `ConfigCommand.EditValueWithNullableType` | src/main/java/net/jingles/acf/ConfigCommand.java:71-75 | With a null type, a missing input still fails with the invalid-argument message, because null is not DELETE. A present input fails at the first `convert` call with a null dereference. Either way nothing is written or sent. With a type present, the command behaves as `EditValue`. |
| `ConfigCommand.EditValueIdempotent` | src/main/java/net/jingles/acf/ConfigCommand.java:75-76 | Repeating a successful edit leaves the configuration and the message as the first run did. |
| `ConfigCommand.ReportedValueReconverts` | src/main/java/net/jingles/acf/ConfigCommand.java:75-78 | For BOOLEAN, STRING and INTEGER, the value text in the success message, typed back in with the same type, converts to the value that was stored. |
| `ConfigCommand.IntegerEditScenario` | src/main/java/net/jingles/acf/ConfigCommand.java:71-78 | `edit-value INTEGER max-players 50` stores 50 at max-players and sends "Successfully set the configuration value to 50". |
| `ConfigCommand.IntegerRejectsWordScenario` | src/main/java/net/jingles/acf/ConfigCommand.java:75-76 | INTEGER with the input "fifty" fails with a number-format error, leaves the configuration unchanged and sends nothing. |
| `ConfigCommand.DeleteWithoutInputScenario` | src/main/java/net/jingles/acf/ConfigCommand.java:71-78 | `edit-value DELETE max-players` with no input writes null at max-players and reports "null". |
| `CommandManager.PeekFirst` | src/main/java/net/jingles/acf/CommandManager.java:137 | `getFirstArg()` is present exactly when a token remains, and it is the first remaining token. |
| `CommandManager.PopFirst` | src/main/java/net/jingles/acf/CommandManager.java:95 | `popFirstArg()` returns what `getFirstArg()` would and removes exactly that one token, if there is one. |
| `CommandManager.ResolveSection` | src/main/java/net/jingles/acf/CommandManager.java:95-96 | The ConfigurationSection context resolves exactly when a token remains. It consumes exactly that token and looks the section up by it. With no token left, the popped path is null and the lookup refuses it with "Path cannot be null". |
| `CommandManager.ResolvePlayerName` | src/main/java/net/jingles/acf/CommandManager.java:108-117 | The issuer-only String context never consumes a token. It returns the issuing player's name, except that it rejects the name "Kuwa_" with an invalid-argument error. A sender that is not a player fails with a null-player error. |
| `CommandManager.ResolveWorld` | src/main/java/net/jingles/acf/CommandManager.java:137-144 | When a token is present, the World context pops exactly that token and looks the world up by it. Otherwise it consumes nothing and returns the issuing player's world. |
| `CommandManager.ResolveUuid` | src/main/java/net/jingles/acf/CommandManager.java:151 | The UUID context never consumes a token and returns the issuing player's unique id. A sender that is not a player fails with a null-player error. |
| `CommandManager.ResolveValueType` | src/main/java/net/jingles/acf/CommandManager.java:155-156 | The ConfigValueType context always resolves, consumes exactly one token, and looks the constant up by that token. |
| `CommandManager.WorldResolverIsConsumingWhenGivenToken` | src/main/java/net/jingles/acf/CommandManager.java:137-142 | With a token present, the World context does not depend on the issuer and behaves like a consuming resolver. |
| `CommandManager.ConsumingResolversReadInOrder` | src/main/java/net/jingles/acf/CommandManager.java:95-96 | The ConfigValueType context followed by the ConfigurationSection context reads the first and then the second token, and leaves the rest. No token is skipped or read twice. |
| `CommandManager.ConfigValueNames` | src/main/java/net/jingles/acf/CommandManager.java:186-189 | The "config-values" list has one entry per constant: the constant's name, in declaration order. |
| `CommandManager.WorldNames` | src/main/java/net/jingles/acf/CommandManager.java:168-176 | The "worlds" list has one entry per loaded world: that world's name, in the same order. |
| `CommandManager.Completion` | src/main/java/net/jingles/acf/CommandManager.java:168-189 | Completions exist for exactly the keys "worlds", "weekdays" and "config-values". Each key yields its own list. |
| `CommandManager.StaticCompletions` | src/main/java/net/jingles/acf/CommandManager.java:183-189 | "config-values" is exactly DELETE, BOOLEAN, STRING, INTEGER, DOUBLE, FLOAT, with no repeats. "weekdays" is exactly Monday to Friday in order. |
| `CommandManager.MaxHealth` | src/main/java/net/jingles/acf/CommandManager.java:218-219 | The maximum health is the attribute's value, or 20 when the attribute is absent. |
| `CommandManager.BelowHalfHealth` | src/main/java/net/jingles/acf/CommandManager.java:214-222 | The condition passes exactly for a player whose health is at most half the maximum. A sender that is not a player fails with "Only players can use this command!" before any health check. A player above half health fails with "You must be below half health to use this command!". |
| `CommandManager.BelowHalfHealthMonotone` | src/main/java/net/jingles/acf/CommandManager.java:221-222 | Lowering a passing player's health keeps the condition passing. |
| `CommandManager.BelowHalfHealthScenario` | src/main/java/net/jingles/acf/CommandManager.java:219-222 | With no max-health attribute, health 15 fails and health 5 passes. |
| `CommandManager.OpConditionAsWritten` | src/main/java/net/jingles/acf/CommandManager.java:252 | As registered, the "op" condition passes for every player (see Findings). |
| `CommandManager.OpCondition` | src/main/java/net/jingles/acf/CommandManager.java:252 | As intended, the "op" condition passes exactly when the parameter player is an operator, and otherwise fails with a condition-failed error. |
| `CommandManager.OpConditionAdmitsNonOperator` | src/main/java/net/jingles/acf/CommandManager.java:252 | A player who is not an operator passes the condition as written and fails the intended one. |

## Left out

- ACF's dispatch engine is not part of this model. That covers annotation processing, the order in which parameters are resolved and conditions run, `@Optional` handling, the missing-argument check and dependency injection. So `EditValue` takes the type, path and input as plain arguments, and this model does not claim how ACF resolves them. The player parameter only receives the success message, which the model records in the returned `sent` list.
- ACF's cursor and issuer behaviour is assumed, not modelled from source. `popFirstArg`/`getFirstArg` give null when no token is left, and `getPlayer()` is null for a sender that is not a player.
- `onNoArgCommand` and `onConfigReload` (help rendering, reloading the file) are left out: they are I/O and library glue.
- `registerDependencies` and `enableUnstableAPI` are left out: they are registration calls with no logic of their own.
- DOUBLE and FLOAT parsing and printing (`Double.valueOf`, `Float.valueOf` and their `toString`) are floating-point behaviour. They are parameters of the model (`FloatingPoint`), with the value kept as its bit pattern.
- Decimal.ParseInt: accepts only the ASCII digits 0-9. Java's `Integer.parseInt` also accepts decimal digits from other Unicode scripts, which the model rejects.
- ConfigCommand.EditValue: writing null is modelled as storing the value `Null` at the path. The configuration store's own handling is not modelled: Bukkit removes the entry for null and treats '.' in a path as section nesting.
- `Bukkit.getWorld`, `Bukkit.getWorlds`, `getConfigurationSection` and `ACFUtil.getEnumFromName` are passed in as lookups, so their matching rules are not modelled. The one behaviour of theirs the model fixes is that `getConfigurationSection` refuses a null path with an IllegalArgumentException.
- `BelowHalfHealth` compares health as mathematical reals, not IEEE doubles.
- `OpCondition`: the source gives no failure text for the intended condition. The message in the model is its own choice.
- Permissions and concurrent dispatches from several issuers are left out.

## Findings

| source | as written | input that shows it | evidently intended | confidence | as-written member | corrected member |
|---|---|---|---|---|---|---|
| src/main/java/net/jingles/acf/CommandManager.java:252 | The lambda `(issuer, context, player) -> player.isOp()` is registered as ACF's parameter condition. That condition's method returns void and signals failure only by throwing. So `isOp()` is evaluated and discarded, and the condition never fails. | A player who is not an operator, given as the `@Conditions("op")` parameter of `edit-value` | The condition fails for a player who is not an operator, so `edit-value` runs only for operators | medium (not executed; depends on ACF's parameter-condition interface returning void, which is outside this model) | `CommandManager.OpConditionAsWritten` (shown by `CommandManager.OpConditionAdmitsNonOperator`) | `CommandManager.OpCondition` |
