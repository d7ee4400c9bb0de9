/**
 * The two outside objects the worker talks to: the Workers KV namespace
 * `env.KV` (a string-keyed store, read and written in place) and the
 * logged-in `AtpAgent` (`agent.post` and `agent.uploadBlob`). The agent's
 * answers are scripted: call number `n` of `post` gets answer `n` of
 * `service`, and call number `n` of `uploadBlob` gets answer `n` of
 * `uploads`, where an absent answer or `None` means the call throws.
 */
module Environment {
  import opened Wrappers
  import opened Types
  import opened Thread

  /** The KV namespace, holding each value already parsed from its JSON text. */
  class Env {
    var kv: map<string, Value>

    constructor (initial: map<string, Value>)
      ensures kv == initial
    {
      kv := initial;
    }

    /** `env.KV.put(key, value)`. */
    method Put(key: string, value: Value)
      modifies this`kv
      ensures kv == old(kv)[key := value]
    {
      kv := kv[key := value];
    }

    /** `env.KV.delete(key)`; deleting a missing key is allowed and changes nothing. */
    method Delete(key: string)
      modifies this`kv
      ensures kv == old(kv) - {key}
    {
      kv := kv - {key};
    }

    /** `env.KV.get(key)`, `null` for a missing key. */
    method Get(key: string) returns (value: Option<Value>)
      ensures value.Some? <==> key in kv
      ensures value.Some? ==> value.value == kv[key]
    {
      value := if key in kv then Some(kv[key]) else None;
    }

    /** `env.KV.list({ prefix })`: every stored key starting with `prefix`, each once, in no promised order. */
    method List(prefix: string) returns (keys: seq<string>)
      ensures forall k :: k in keys <==> k in kv && HasPrefix(k, prefix)
      ensures forall i, j :: 0 <= i < j < |keys| ==> keys[i] != keys[j]
    {
      keys := [];
      var rest := set k | k in kv && HasPrefix(k, prefix);
      while rest != {}
        invariant forall k :: k in keys || k in rest <==> k in kv && HasPrefix(k, prefix)
        invariant forall k :: k in rest ==> k !in keys
        invariant forall i, j :: 0 <= i < j < |keys| ==> keys[i] != keys[j]
        decreases |rest|
      {
        var k :| k in rest;
        keys := keys + [k];
        rest := rest - {k};
      }
    }
  }

  /** The answer to call number `n` of `uploadBlob`: a blob, or `None` when the call throws. */
  function UploadAt(uploads: seq<Option<Blob>>, n: nat): (r: Option<Blob>)
    ensures n >= |uploads| ==> r.None?
  {
    if n < |uploads| then uploads[n] else None
  }

  /** The logged-in agent, with its scripted answers and the record of the calls made to it. */
  class Agent {
    const service: seq<Response>
    const uploads: seq<Option<Blob>>
    var sent: seq<PostObject>
    var uploadCalls: nat

    constructor (service: seq<Response>, uploads: seq<Option<Blob>>)
      ensures this.service == service && this.uploads == uploads
      ensures sent == [] && uploadCalls == 0
    {
      this.service := service;
      this.uploads := uploads;
      sent := [];
      uploadCalls := 0;
    }

    /** `agent.post(object)`: the object is handed over, and the next scripted answer comes back. */
    method SendPost(o: PostObject) returns (response: Response)
      modifies this`sent
      ensures sent == old(sent) + [o]
      ensures response == ReplyAt(service, |old(sent)|)
    {
      response := ReplyAt(service, |sent|);
      sent := sent + [o];
    }

    /** `agent.uploadBlob(blob)`: the next scripted answer; `None` when the upload throws. */
    method UploadBlob() returns (blob: Option<Blob>)
      modifies this`uploadCalls
      ensures uploadCalls == old(uploadCalls) + 1
      ensures blob == UploadAt(uploads, old(uploadCalls))
    {
      blob := UploadAt(uploads, uploadCalls);
      uploadCalls := uploadCalls + 1;
    }
  }
}
