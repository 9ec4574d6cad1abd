/**
 * The static table of conventional-commit types: eleven entries in a fixed
 * declaration order, each with its lowercase key, a human description and the
 * keywords the fallback scorer looks for. Each entry's regular expression is
 * the same template instantiated with the key, so it is not stored here; the
 * Patterns module matches it.
 */
module CommitTypes {
  import opened Wrappers

  datatype CommitType =
    | Feat | Fix | Docs | Style | Refactor | Perf | Test | Build | Ci | Chore | Revert

  /** The table's keys in declaration order; every loop over the table walks this. */
  const AllTypes: seq<CommitType> :=
    [Feat, Fix, Docs, Style, Refactor, Perf, Test, Build, Ci, Chore, Revert]

  /** Position of a type in the declaration order. */
  function Index(t: CommitType): (i: nat)
    ensures i < |AllTypes| && AllTypes[i] == t
  {
    match t
    case Feat => 0
    case Fix => 1
    case Docs => 2
    case Style => 3
    case Refactor => 4
    case Perf => 5
    case Test => 6
    case Build => 7
    case Ci => 8
    case Chore => 9
    case Revert => 10
  }

  /** The lowercase key the table stores the type under. */
  function Name(t: CommitType): (n: string)
    ensures |n| > 0
    ensures forall k | 0 <= k < |n| :: 'a' <= n[k] <= 'z'
  {
    match t
    case Feat => "feat"
    case Fix => "fix"
    case Docs => "docs"
    case Style => "style"
    case Refactor => "refactor"
    case Perf => "perf"
    case Test => "test"
    case Build => "build"
    case Ci => "ci"
    case Chore => "chore"
    case Revert => "revert"
  }

  /** Looks a key up in the table. */
  function FromName(s: string): (r: Option<CommitType>)
    ensures r.Some? ==> Name(r.value) == s
  {
    if s == "feat" then Some(Feat)
    else if s == "fix" then Some(Fix)
    else if s == "docs" then Some(Docs)
    else if s == "style" then Some(Style)
    else if s == "refactor" then Some(Refactor)
    else if s == "perf" then Some(Perf)
    else if s == "test" then Some(Test)
    else if s == "build" then Some(Build)
    else if s == "ci" then Some(Ci)
    else if s == "chore" then Some(Chore)
    else if s == "revert" then Some(Revert)
    else None
  }

  /** Every key looks up its own type, so no two types share a key. */
  lemma NameRoundTrip(t: CommitType)
    ensures FromName(Name(t)) == Some(t)
  {
  }

  lemma NameInjective(t: CommitType, u: CommitType)
    requires Name(t) == Name(u)
    ensures t == u
  {
    NameRoundTrip(t);
    NameRoundTrip(u);
  }

  /** The table has eleven distinct entries and lists every type exactly once. */
  lemma TableShape()
    ensures |AllTypes| == 11
    ensures forall i, j | 0 <= i < j < |AllTypes| :: AllTypes[i] != AllTypes[j]
    ensures forall t: CommitType :: t in AllTypes
  {
    forall i, j | 0 <= i < j < |AllTypes|
      ensures AllTypes[i] != AllTypes[j]
    {
      assert Index(AllTypes[i]) == i && Index(AllTypes[j]) == j;
    }
    forall t: CommitType
      ensures t in AllTypes
    {
      assert AllTypes[Index(t)] == t;
    }
  }

  /** The `description` field of each table entry. */
  function Description(t: CommitType): (d: string)
    ensures |d| > 0
  {
    match t
    case Feat => "A new feature"
    case Fix => "A bug fix"
    case Docs => "Documentation changes"
    case Style => "Code style changes (formatting, semicolons, etc.)"
    case Refactor => "Code refactoring"
    case Perf => "Performance improvements"
    case Test => "Adding or updating tests"
    case Build => "Build system or dependency changes"
    case Ci => "CI/CD configuration changes"
    case Chore => "Other changes that don't modify src or test files"
    case Revert => "Reverts a previous commit"
  }

  /** The `keywords` list of each table entry, in table order. */
  function Keywords(t: CommitType): (kws: seq<string>)
    ensures 3 <= |kws| <= 6
    ensures forall i | 0 <= i < |kws| :: |kws[i]| > 0
  {
    match t
    case Feat => ["add", "new", "implement", "create", "introduce"]
    case Fix => ["fix", "bug", "resolve", "correct", "repair", "patch"]
    case Docs => ["doc", "documentation", "readme", "comment", "guide"]
    case Style => ["style", "format", "indent", "whitespace", "lint"]
    case Refactor => ["refactor", "restructure", "optimize", "improve", "clean"]
    case Perf => ["performance", "perf", "speed", "optimize", "faster"]
    case Test => ["test", "testing", "spec", "coverage", "unit", "integration"]
    case Build => ["build", "dependency", "deps", "package", "npm", "pip"]
    case Ci => ["ci", "cd", "pipeline", "jenkins", "travis", "github actions"]
    case Chore => ["chore", "update", "upgrade", "maintenance", "config"]
    case Revert => ["revert", "undo", "rollback"]
  }
}
