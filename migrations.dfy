/**
 * The version 1 to version 2 settings migration (`src/lib/utils/migrations.ts`):
 * the boolean `smoothScroll` becomes `enableJump` and `scrollBehavior`.
 * Settings are a map from key to a JavaScript value.
 */
module Migrations {
  /** The JavaScript values a stored setting can hold; numbers are integers here. */
  datatype Value = Bool(b: bool) | Number(n: int) | Str(s: string) | Null | Undefined | Object

  /** JavaScript truthiness: false, 0, "", null and undefined are falsy. */
  predicate Truthy(v: Value) {
    match v
    case Bool(b) => b
    case Number(n) => n != 0
    case Str(s) => s != ""
    case Null => false
    case Undefined => false
    case Object => true
  }

  type Settings = map<string, Value>

  const OldKey := "smoothScroll"
  const JumpKey := "enableJump"
  const BehaviorKey := "scrollBehavior"

  /**
   * `migrateV1toV2`: without `smoothScroll` the settings are returned as
   * they are; otherwise `smoothScroll` is removed and the two new keys are
   * set from it (over any value they had), every other key kept.
   */
  function Migrate(prior: Settings): (r: Settings)
    ensures OldKey !in prior ==> r == prior
    ensures OldKey in prior ==>
      && OldKey !in r && JumpKey in r && BehaviorKey in r
      && r[JumpKey] == Bool(prior[OldKey] == Bool(true))
      && r[BehaviorKey] == Str(if Truthy(prior[OldKey]) then "smooth" else "instant")
    ensures OldKey in prior ==> r.Keys == prior.Keys - {OldKey} + {JumpKey, BehaviorKey}
    ensures forall k :: k != OldKey && k != JumpKey && k != BehaviorKey ==>
      (k in r <==> k in prior) && (k in r ==> r[k] == prior[k])
  {
    if OldKey in prior then
      var smoothScroll := prior[OldKey];
      var rest := prior - {OldKey};
      rest[JumpKey := Bool(smoothScroll == Bool(true))]
          [BehaviorKey := Str(if Truthy(smoothScroll) then "smooth" else "instant")]
    else prior
  }

  /** Migrating an already migrated result changes nothing. */
  lemma MigrateIdempotent(prior: Settings)
    ensures Migrate(Migrate(prior)) == Migrate(prior)
  {
  }

  /** `enableJump` is set only by a literal `true`; a truthy non-boolean still gives smooth scrolling. */
  lemma TruthyIsNotTrue()
    ensures var r := Migrate(map[OldKey := Number(1)]);
      r[JumpKey] == Bool(false) && r[BehaviorKey] == Str("smooth")
  {
  }

  /** The first migration scenario of the test suite: `smoothScroll: true` with other settings. */
  lemma SmoothScrollTrueScenario()
    ensures var r := Migrate(map["wordCount" := Number(250), OldKey := Bool(true), "autoExpand" := Bool(false)]);
      && r[JumpKey] == Bool(true) && r[BehaviorKey] == Str("smooth")
      && "wordCount" in r && r["wordCount"] == Number(250) && OldKey !in r
  {
  }
}
