/**
 The keeper of idempotency records, as its callers see it: for each key nothing, a running
 call or the stored result of one. Only the contract its comments state is modelled.
 */
module Dedup {
  import opened Outcomes

  datatype Record<T> = Running(holder: nat) | Stored(value: T)

  type Records<T> = map<string, Record<T>>

  /** The store a call meets: working, down, or failing in some other way. */
  datatype Health = Up | Down | Faulty

  /** How a call of Do begins: it runs, finds another running or done, no store, or fails otherwise. */
  datatype Claim<T> = Granted | InProgress | Repeat(value: T) | Unavailable | Failed

  /** How writing the result ends; an error may come before or after the store has it. */
  datatype Commit = Written | LostBefore | LostAfter

  function ClaimOf<T>(records: Records<T>, key: string, store: Health): Claim<T> {
    if store.Down? then Unavailable
    else if store.Faulty? then Failed
    else if key !in records then Granted
    else if records[key].Running? then InProgress
    else Repeat(records[key].value)
  }

  function Begun<T>(records: Records<T>, key: string, holder: nat, store: Health): Records<T> {
    if ClaimOf(records, key, store).Granted? then records[key := Running(holder)] else records
  }

  /** The call ended with a result to store, or with an error that frees the key. */
  function Finished<T>(records: Records<T>, key: string, result: Option<T>, commit: Commit): Records<T> {
    if commit.LostBefore? then records
    else if result.Some? then records[key := Stored(result.value)]
    else records - {key}
  }
}
