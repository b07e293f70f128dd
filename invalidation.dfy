/**
 * The coordinator between the local store, the pub/sub registry and the
 * scheduler: it owns the two invalidation channels and the map from key
 * to the one pending expiry check of that key.
 */
module Invalidation {
  import opened Wrappers
  import opened Jvm
  import opened LocalStore
  import opened PubSub
  import Server

  const INVALIDATE_CHANNEL: string := "sedis.cache:invalidate"
  const CLEAR_CHANNEL: string := "sedis.cache:clear"

  /** A check handed to the scheduler: which key, after how many seconds. */
  datatype Task = Task(key: string, seconds: int)

  /**
   * The expiry-task map and the scheduler's queue of not yet run tasks are
   * in one-to-one correspondence: each key maps to a queued task of that
   * key, and each queued task is the one its key maps to.
   */
  ghost predicate TasksMatchQueue(tasks: map<string, nat>, pending: map<nat, Task>)
  {
    (forall k | k in tasks :: tasks[k] in pending && pending[tasks[k]].key == k) &&
    (forall id | id in pending :: pending[id].key in tasks && tasks[pending[id].key] == id)
  }

  /** Under the correspondence, no key has two queued tasks. */
  lemma AtMostOneTaskPerKey(tasks: map<string, nat>, pending: map<nat, Task>, i: nat, j: nat)
    requires TasksMatchQueue(tasks, pending)
    requires i in pending && j in pending && pending[i].key == pending[j].key
    ensures i == j
  {
    assert tasks[pending[i].key] == i;
  }

  /** Under the correspondence, cancelling every task of the map empties the queue. */
  lemma QueueIsTaskValues(tasks: map<string, nat>, pending: map<nat, Task>)
    requires TasksMatchQueue(tasks, pending)
    ensures pending.Keys == tasks.Values
  {
    forall id | id in pending ensures id in tasks.Values {
      assert tasks[pending[id].key] == id;
    }
  }

  /** The scheduler's queue once the key's task, if it has one, is cancelled. */
  function Cancelled(tasks: map<string, nat>, pending: map<nat, Task>, key: string): (r: map<nat, Task>)
    ensures TasksMatchQueue(tasks, pending) ==> TasksMatchQueue(tasks - {key}, r)
    ensures forall id | id in r :: id in pending && r[id] == pending[id]
  {
    if key in tasks then pending - {tasks[key]} else pending
  }

  class CacheInvalidationManager {
    const storage: CacheStorage
    const pubsub: SedisPubSubManager
    var tasks: map<string, nat>      // `expirationTasks`: key to the id of its scheduled future
    var pending: map<nat, Task>      // the scheduler's queue of tasks not yet run or cancelled
    var nextId: nat

    ghost predicate Valid()
      reads this
    {
      TasksMatchQueue(tasks, pending) && forall id | id in pending :: id < nextId
    }

    constructor(storage: CacheStorage, pubsub: SedisPubSubManager)
      ensures Valid() && tasks == map[] && pending == map[]
      ensures this.storage == storage && this.pubsub == pubsub
    {
      this.storage := storage;
      this.pubsub := pubsub;
      tasks, pending, nextId := map[], map[], 0;
    }

    /** Registers the invalidation handler and the clear handler. */
    method Initialize()
      requires pubsub.Valid()
      modifies pubsub
      ensures pubsub.Valid()
      ensures pubsub.subscribers ==
                AfterSubscribe(AfterSubscribe(old(pubsub.subscribers), INVALIDATE_CHANNEL, InvalidateSubscriber),
                               CLEAR_CHANNEL, ClearSubscriber)
    {
      pubsub.Subscribe(INVALIDATE_CHANNEL, InvalidateSubscriber);
      pubsub.Subscribe(CLEAR_CHANNEL, ClearSubscriber);
    }

    /** Removes both handlers, then cancels every pending expiry check. */
    method Shutdown()
      requires Valid() && pubsub.Valid()
      modifies this, pubsub
      ensures Valid() && pubsub.Valid()
      ensures pubsub.subscribers ==
                AfterUnsubscribe(AfterUnsubscribe(old(pubsub.subscribers), INVALIDATE_CHANNEL, InvalidateSubscriber),
                                 CLEAR_CHANNEL, ClearSubscriber)
      ensures tasks == map[] && pending == map[]
    {
      pubsub.Unsubscribe(INVALIDATE_CHANNEL, InvalidateSubscriber);
      pubsub.Unsubscribe(CLEAR_CHANNEL, ClearSubscriber);
      CancelAllExpirationTasks();
    }

    /** Drops the key from the local store and cancels its expiry check. */
    method InvalidateKey(key: string)
      requires Valid()
      modifies this, storage
      ensures Valid()
      ensures storage.raw == old(storage.raw) - {key}
      ensures storage.typed == WithoutPrefix(old(storage.typed), key + SEP)
      ensures tasks == old(tasks) - {key}
      ensures pending == Cancelled(old(tasks), old(pending), key)
    {
      storage.InvalidateKey(key);
      CancelExpirationTask(key);
    }

    /** Tells other nodes to drop `key`; the payload is the Gson text of the key. */
    method PublishInvalidation(key: string)
      modifies pubsub.redis
      ensures pubsub.redis.published ==
                old(pubsub.redis.published) + [Server.Message(INVALIDATE_CHANNEL, pubsub.gson.EncodeString(key))]
      ensures pubsub.redis.data == old(pubsub.redis.data) && pubsub.redis.expiring == old(pubsub.redis.expiring)
    {
      pubsub.Publish(INVALIDATE_CHANNEL, StringObj(key));
    }

    /** Tells other nodes to clear their stores; the payload is the Gson text of "". */
    method PublishClear()
      modifies pubsub.redis
      ensures pubsub.redis.published ==
                old(pubsub.redis.published) + [Server.Message(CLEAR_CHANNEL, pubsub.gson.EncodeString(""))]
      ensures pubsub.redis.data == old(pubsub.redis.data) && pubsub.redis.expiring == old(pubsub.redis.expiring)
    {
      pubsub.Publish(CLEAR_CHANNEL, StringObj(""));
    }

    /** Replaces the key's expiry check by a fresh one. */
    method ScheduleExpiration(key: string, seconds: int)
      requires Valid()
      modifies this
      ensures Valid()
      ensures key in tasks && pending[tasks[key]] == Task(key, seconds) && tasks[key] !in old(pending)
      ensures tasks - {key} == old(tasks) - {key}
      ensures pending - {tasks[key]} == Cancelled(old(tasks), old(pending), key)
    {
      CancelExpirationTask(key);
      var id := nextId;
      pending := pending[id := Task(key, seconds)];
      nextId := nextId + 1;
      tasks := tasks[key := id];
    }

    /** Cancels the key's expiry check, if it has one; `cancel(false)` never stops a running check. */
    method CancelExpirationTask(key: string)
      modifies this
      ensures old(Valid()) ==> Valid()
      ensures tasks == old(tasks) - {key}
      ensures pending == Cancelled(old(tasks), old(pending), key)
      ensures nextId == old(nextId)
    {
      if key in tasks {
        pending := pending - {tasks[key]};
        tasks := tasks - {key};
      }
    }

    /** Cancels every expiry check in the map, then empties the map. */
    method CancelAllExpirationTasks()
      requires Valid()
      modifies this
      ensures Valid() && tasks == map[] && pending == map[]
    {
      QueueIsTaskValues(tasks, pending);
      var left := tasks.Values;
      while left != {}
        invariant left <= tasks.Values
        invariant pending.Keys == left
        decreases |left|
      {
        var id :| id in left;
        pending := pending - {id};
        left := left - {id};
      }
      tasks := map[];
    }

    /**
     * One queued check runs: if the store no longer has the key, the key is
     * invalidated locally and announced; then the key's map entry is removed.
     * The check is the one the cache schedules for expiring keys.
     */
    method Fire(id: nat)
      requires Valid() && id in pending
      modifies this, storage, pubsub.redis
      ensures Valid()
      ensures var key := old(pending)[id].key;
              tasks == old(tasks) - {key} && pending == old(pending) - {id} &&
              (if key in old(pubsub.redis.data)
               then storage.raw == old(storage.raw) && storage.typed == old(storage.typed) &&
                    pubsub.redis.published == old(pubsub.redis.published)
               else storage.raw == old(storage.raw) - {key} &&
                    storage.typed == WithoutPrefix(old(storage.typed), key + SEP) &&
                    pubsub.redis.published ==
                      old(pubsub.redis.published) + [Server.Message(INVALIDATE_CHANNEL, pubsub.gson.EncodeString(key))])
      ensures pubsub.redis.data == old(pubsub.redis.data) && pubsub.redis.expiring == old(pubsub.redis.expiring)
    {
      var key := pending[id].key;
      pending := pending - {id};
      var present := pubsub.redis.Exists(key);
      if !present {
        storage.InvalidateKey(key);
        CancelExpirationTask(key);
        PublishInvalidation(key);
      }
      tasks := tasks - {key};
    }

    /** The invalidation handler: the payload is taken as the key to drop. */
    method OnInvalidateMessage(message: string)
      requires Valid()
      modifies this, storage
      ensures Valid()
      ensures storage.raw == old(storage.raw) - {message}
      ensures storage.typed == WithoutPrefix(old(storage.typed), message + SEP)
      ensures tasks == old(tasks) - {message}
      ensures pending == Cancelled(old(tasks), old(pending), message)
    {
      InvalidateKey(message);
    }

    /** The clear handler: empties the store and leaves the expiry checks alone. */
    method OnClearMessage()
      modifies storage
      ensures storage.raw == map[] && storage.typed == map[]
    {
      storage.Clear();
    }
  }
}
