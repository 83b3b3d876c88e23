/** `OutboxConfig`: the `outbox.*` settings, as bound and validated at startup. */
module OutboxConfig {
  /** `outbox.scheduler`: on/off switch and the fixed delays of the two ticks,
      in milliseconds. */
  datatype Scheduler = Scheduler(enabled: bool, createDelayMs: nat, deleteDelayMs: nat)

  datatype Config = Config(maxAttempts: int, createBatchSize: int, deleteBatchSize: int, scheduler: Scheduler)

  /** The Min(1) constraints; a configuration that breaks them never starts. */
  predicate Valid(c: Config) {
    c.maxAttempts >= 1 && c.createBatchSize >= 1 && c.deleteBatchSize >= 1
  }

  /** The field initialisers: 5 attempts, batches of 50 creates and 200
      deletes, scheduler on, ticks every 5 s and 60 s. */
  function Default(): (c: Config)
    ensures Valid(c)
    ensures c.scheduler.enabled && c.scheduler.createDelayMs < c.scheduler.deleteDelayMs
    ensures c.createBatchSize < c.deleteBatchSize
  {
    Config(5, 50, 200, Scheduler(true, 5 * 1000, 60 * 1000))
  }
}
