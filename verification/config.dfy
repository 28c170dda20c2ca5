/** The parts of the configuration the protocol reads (src/ocp/config.py). */
module Configs {

  /** A whitelist entry is a user name or a numeric uid. */
  datatype Member = Name(user: string) | Uid(uid: int)

  datatype Config = Config(
    indices: seq<int>,
    utilLow: int,
    memLow: int,
    idleDebounceS: int,
    workloads: seq<string>,
    whitelist: seq<Member>,
    minDurationS: int,
    maxDurationS: int,
    maxEntries: int)

  /** What loading a configuration checks of these fields. */
  predicate Validated(c: Config) {
    && 0 <= c.utilLow <= 100
    && 0 <= c.memLow <= 100
    && c.idleDebounceS > 0
    && 0 < c.minDurationS <= c.maxDurationS
    && c.maxEntries >= 10
    && (forall i :: 0 <= i < |c.indices| ==> c.indices[i] >= 0)
  }
}
