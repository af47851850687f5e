/** The parts of the profile configuration the migration reads: the
    `[migration]` section (skip list, multicall switch, init order), the
    per-tag raw init arguments and the world salt. */
module Config {
  import opened Base
  import opened Diff

  datatype MigrationConfig = MigrationConfig(
    skipContracts: Option<seq<Tag>>,
    disableMulticall: Option<bool>,
    orderInits: Option<seq<Tag>>)

  datatype ProfileConfig = ProfileConfig(
    migration: Option<MigrationConfig>,
    initCallArgs: Option<map<Tag, seq<string>>>,
    /** The salt derived from the configured world seed. */
    worldSalt: Felt)

  /** `profile_config.is_skipped(tag)`: the tag is on the migration skip list. */
  predicate IsSkipped(p: ProfileConfig, tag: Tag) {
    p.migration.Some? && p.migration.value.skipContracts.Some?
    && tag in p.migration.value.skipContracts.value
  }

  /** `do_multicall`: batching is on unless the migration section disables it. */
  function DoMulticall(p: ProfileConfig): (r: bool)
    ensures !r <==> p.migration.Some? && p.migration.value.disableMulticall == Some(true)
  {
    match p.migration
    case None => true
    case Some(m) => !(match m.disableMulticall case None => false case Some(b) => b)
  }

  /** The configured init order, empty when absent. */
  function OrderInits(p: ProfileConfig): seq<Tag> {
    match p.migration
    case None => []
    case Some(m) => match m.orderInits case None => [] case Some(tags) => tags
  }

  /** `init_call_args.get(tag)`, with a missing table read as an empty one. */
  function InitArgsOf(p: ProfileConfig, tag: Tag): Option<seq<string>> {
    match p.initCallArgs
    case None => None
    case Some(args) => if tag in args then Some(args[tag]) else None
  }

  /** The inputs of one migration run (`Migration` without its connection). */
  datatype Migration = Migration(diff: WorldDiff, profile: ProfileConfig, guest: bool)
}
