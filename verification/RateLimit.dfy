/** What both rate limiters share: a request is charged to several keys, each with its limit. */
module RateLimit {

  type Key = string

  datatype KeyLimit = KeyLimit(key: Key, limit: int)

  datatype Reply = Reply(allowed: bool, remaining: int, resetAt: int, limit: int)
}
