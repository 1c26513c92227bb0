/** The worker thread of lib/crypto-worker.js: one reply per message, with parsed keys taken from two caches. */
module Worker {
  import opened Octets
  import opened JsMap
  import opened RsaCalls
  import opened Lru

  datatype Caches<K> = Caches(public: Entries<string, K>, private: Entries<string, K>)

  /** The caches after a job: its key was asked for in one of them. */
  function Served<K>(crypto: Crypto<K>, s: Caches<K>, job: Job): Caches<K> {
    if UsesPublicKey(job.op) then s.(public := Access(s.public, job.keyPem, crypto.loadPublicKey(job.keyPem)))
    else s.(private := Access(s.private, job.keyPem, crypto.loadPrivateKey(job.keyPem)))
  }

  /** The reply a worker with these caches gives: the cached key if there is one, else the loaded key. */
  function Reply<K>(crypto: Crypto<K>, s: Caches<K>, job: Job, seed: nat): Outcome {
    var public := UsesPublicKey(job.op);
    match Get(if public then s.public else s.private, job.keyPem)
    case Some(k) => Apply(crypto, k, job, seed)
    case None =>
      match Load(crypto, public, job.keyPem)
      case Key(k) => Apply(crypto, k, job, seed)
      case LoadError(message) => Failure(message)
  }

  ghost predicate Consistent<K>(crypto: Crypto<K>, s: Caches<K>) {
    && Distinct(s.public) && Distinct(s.private)
    && Faithful(s.public, crypto.loadPublicKey) && Faithful(s.private, crypto.loadPrivateKey)
  }

  /** Caching changes no answer: the reply is that of the direct call, and the caches stay consistent. */
  lemma CachingIsTransparent<K>(crypto: Crypto<K>, s: Caches<K>, job: Job, seed: nat)
    requires Consistent(crypto, s)
    ensures Reply(crypto, s, job, seed) == Direct(crypto, job, seed)
    ensures Consistent(crypto, Served(crypto, s, job))
  {
  }

  class CryptoWorker<K> {
    const crypto: Crypto<K>
    const pubCache: LruCache<K>
    const privCache: LruCache<K>

    ghost function Now(): Caches<K>
      reads pubCache, privCache
    {
      Caches(pubCache.entries, privCache.entries)
    }

    constructor (crypto: Crypto<K>)
      ensures this.crypto == crypto && pubCache != privCache && fresh(pubCache) && fresh(privCache)
      ensures Now() == Caches([], [])
    {
      this.crypto := crypto;
      pubCache := new LruCache<K>();
      privCache := new LruCache<K>();
    }

    /** `getPub` and `getPriv`. */
    method GetKey(public: bool, pem: string) returns (loaded: Loaded<K>)
      requires pubCache != privCache
      modifies pubCache, privCache
      ensures var cache := if public then old(pubCache.entries) else old(privCache.entries);
              var got, fromPem := Get(cache, pem), Load(crypto, public, pem);
              && loaded == (if got.Some? then Key(got.value) else fromPem)
              && Now() == if public then old(Now()).(public := Access(cache, pem, fromPem))
                          else old(Now()).(private := Access(cache, pem, fromPem))
    {
      var cache := if public then pubCache else privCache;
      var hit := cache.LruGet(pem);
      if hit.Some? {
        return Key(hit.value);
      }
      loaded := Load(crypto, public, pem);
      if loaded.Key? {
        cache.LruSet(pem, loaded.k);
      }
    }

    /** The message handler. */
    method OnMessage(job: Job, seed: nat) returns (outcome: Outcome)
      requires pubCache != privCache && Consistent(crypto, Now())
      modifies pubCache, privCache
      ensures outcome == Direct(crypto, job, seed)
      ensures Now() == Served(crypto, old(Now()), job) && Consistent(crypto, Now())
    {
      CachingIsTransparent(crypto, Now(), job, seed);
      var loaded := GetKey(UsesPublicKey(job.op), job.keyPem);
      outcome := match loaded
        case Key(k) => Apply(crypto, k, job, seed)
        case LoadError(message) => Failure(message);
    }
  }
}
