/** Process configuration: only the enumerated cohorts matter to the core. */
module Config {

  /** The cohorts a request may name; each one names its own search index. */
  const Cohorts: seq<string> := ["r11", "r12", "r13", "r14"]
}
