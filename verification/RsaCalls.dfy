/** The RSA operations of lib/crypto.js, as abstract functions on parsed keys.  Encryption is randomised: its last
    argument is the randomness it draws. */
module RsaCalls {
  import opened Octets

  datatype Op = Encrypt | Decrypt | Sign | Verify

  datatype Job = Job(op: Op, keyPem: string, data: Bytes, extra: Bytes)

  datatype Outcome = Result(bytes: Bytes) | Failure(message: string)

  datatype Loaded<K> = Key(k: K) | LoadError(message: string)

  datatype Checked = Checked(ok: bool) | CheckError(message: string)

  datatype Crypto<!K> = Crypto(
    loadPublicKey: string -> Loaded<K>,
    loadPrivateKey: string -> Loaded<K>,
    rsaEncrypt: (K, Bytes, nat) -> Outcome,
    rsaDecrypt: (K, Bytes) -> Outcome,
    rsaSign: (K, Bytes) -> Outcome,
    rsaVerify: (K, Bytes, Bytes) -> Checked)

  predicate UsesPublicKey(op: Op) {
    op.Encrypt? || op.Verify?
  }

  function Load<K>(crypto: Crypto<K>, public: bool, pem: string): Loaded<K> {
    if public then crypto.loadPublicKey(pem) else crypto.loadPrivateKey(pem)
  }

  /** The operation of a job on a parsed key; a verification answers with one byte. */
  function Apply<K>(crypto: Crypto<K>, k: K, job: Job, seed: nat): Outcome {
    match job.op
    case Encrypt => crypto.rsaEncrypt(k, job.data, seed)
    case Decrypt => crypto.rsaDecrypt(k, job.data)
    case Sign => crypto.rsaSign(k, job.data)
    case Verify =>
      match crypto.rsaVerify(k, job.data, job.extra)
      case Checked(ok) => Result([if ok then 1 else 0])
      case CheckError(message) => Failure(message)
  }

  /** What the job yields when it is simply called: its own key is loaded and the operation applied to it. */
  function Direct<K>(crypto: Crypto<K>, job: Job, seed: nat): Outcome {
    match Load(crypto, UsesPublicKey(job.op), job.keyPem)
    case Key(k) => Apply(crypto, k, job, seed)
    case LoadError(message) => Failure(message)
  }

  /** Which key and which operation: encrypting and verifying take the public key of the PEM, decrypting and signing
      the private one; a key that does not load is a failure, and a verification answers 1 or 0. */
  lemma DirectMeans<K>(crypto: Crypto<K>, pem: string, data: Bytes, extra: Bytes, seed: nat)
    ensures var pub := crypto.loadPublicKey(pem);
            if pub.LoadError? then
              && Direct(crypto, Job(Encrypt, pem, data, extra), seed) == Failure(pub.message)
              && Direct(crypto, Job(Verify, pem, data, extra), seed) == Failure(pub.message)
            else
              && Direct(crypto, Job(Encrypt, pem, data, extra), seed) == crypto.rsaEncrypt(pub.k, data, seed)
              && var checked := crypto.rsaVerify(pub.k, data, extra);
                 Direct(crypto, Job(Verify, pem, data, extra), seed) ==
                 if checked.CheckError? then Failure(checked.message) else Result(if checked.ok then [1] else [0])
    ensures var priv := crypto.loadPrivateKey(pem);
            if priv.LoadError? then
              && Direct(crypto, Job(Decrypt, pem, data, extra), seed) == Failure(priv.message)
              && Direct(crypto, Job(Sign, pem, data, extra), seed) == Failure(priv.message)
            else
              && Direct(crypto, Job(Decrypt, pem, data, extra), seed) == crypto.rsaDecrypt(priv.k, data)
              && Direct(crypto, Job(Sign, pem, data, extra), seed) == crypto.rsaSign(priv.k, data)
  {
  }
}
