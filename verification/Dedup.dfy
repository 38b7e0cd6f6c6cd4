/** The duplicate filter: `SET key 1 NX EX ttl` on a store whose keys expire. */
module Dedup {

  /** When each key expires. An expired entry counts as absent. */
  type Keys = map<string, int>

  /** A connection to the store may fail before or after the command has taken effect. */
  datatype Link = Up | RequestLost | ReplyLost

  /** `Ok(true)`, `Ok(false)` and `Err` of `is_new`. */
  datatype Answer = New | Duplicate | Failed

  function KeyOf(id: string): string {
    "dedup:" + id
  }

  lemma KeysDiffer(a: string, b: string)
    ensures KeyOf(a) == KeyOf(b) <==> a == b
  {
    assert KeyOf(a)[6..] == a && KeyOf(b)[6..] == b;
  }

  predicate Taken(keys: Keys, id: string, now: int) {
    KeyOf(id) in keys && now < keys[KeyOf(id)]
  }

  /** Whether the command reaches the store: ids have 1 to 512 bytes, and the store refuses a
      time to live of zero. */
  predicate Sent(id: string, ttl: nat, link: Link) {
    1 <= |id| <= 512 && ttl > 0 && link != RequestLost
  }

  /** The command sets the key. */
  predicate Marks(keys: Keys, ttl: nat, id: string, now: int, link: Link) {
    Sent(id, ttl, link) && !Taken(keys, id, now)
  }

  function AnswerOf(keys: Keys, ttl: nat, id: string, now: int, link: Link): Answer {
    if !Sent(id, ttl, link) || link == ReplyLost then Failed
    else if Taken(keys, id, now) then Duplicate
    else New
  }

  function KeysAfter(keys: Keys, ttl: nat, id: string, now: int, link: Link): Keys {
    if Marks(keys, ttl, id, now, link) then keys[KeyOf(id) := now + ttl] else keys
  }

  /** Ids of 1 to 512 bytes are answered whenever the store answers: a held id is a duplicate, and
      any other is new and held from now on under its own key. */
  lemma AnswerUp(keys: Keys, ttl: nat, id: string, now: int)
    requires 1 <= |id| <= 512 && ttl > 0
    ensures var held := "dedup:" + id in keys && now < keys["dedup:" + id];
            && AnswerOf(keys, ttl, id, now, Up) == (if held then Duplicate else New)
            && KeysAfter(keys, ttl, id, now, Up) == (if held then keys else keys["dedup:" + id := now + ttl])
  {
  }

  /** Otherwise the answer is a failure; then the key is set exactly if the command took effect and
      only its reply was lost. */
  lemma AnswerFailed(keys: Keys, ttl: nat, id: string, now: int, link: Link)
    ensures |id| == 0 || |id| > 512 || ttl == 0 || link != Up ==> AnswerOf(keys, ttl, id, now, link) == Failed
    ensures |id| == 0 || |id| > 512 || ttl == 0 || link == RequestLost ==> KeysAfter(keys, ttl, id, now, link) == keys
    ensures 1 <= |id| <= 512 && ttl > 0 ==>
              KeysAfter(keys, ttl, id, now, ReplyLost) == KeysAfter(keys, ttl, id, now, Up)
  {
  }

  class DedupChecker {
    const ttl: nat
    var keys: Keys

    constructor (ttl: nat)
      ensures this.ttl == ttl && keys == map[]
    {
      this.ttl := ttl;
      keys := map[];
    }

    /** `is_new`: an atomic check and set. */
    method IsNew(id: string, now: int, link: Link) returns (answer: Answer)
      modifies this
      ensures answer == AnswerOf(old(keys), ttl, id, now, link)
      ensures keys == KeysAfter(old(keys), ttl, id, now, link)
    {
      if |id| == 0 || |id| > 512 {
        return Failed;
      }
      if link == RequestLost || ttl == 0 {
        return Failed;
      }
      var key := KeyOf(id);
      var set_ := !(key in keys && now < keys[key]);
      if set_ {
        keys := keys[key := now + ttl];
      }
      if link == ReplyLost {
        return Failed;
      }
      return if set_ then New else Duplicate;
    }
  }
}
