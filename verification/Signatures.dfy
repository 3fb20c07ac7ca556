/** Signature files: up to eight signatures over `domain || payload`, any one of a trusted key suffices. */
module Signatures {
  import opened Documents
  import opened ReleaseArchive
  import opened Wrappers

  const MAX_SIGNATURE_BYTES := 0x4000
  const MAX_SIGNATURES := 8
  const SIGNATURE_LENGTH := 64

  function Ascii(s: string): Bytes
    requires forall i :: 0 <= i < |s| ==> (s[i] as int) < 128
  {
    seq(|s|, i requires 0 <= i < |s| => s[i] as int)
  }

  const CATALOG_DOMAIN := Ascii("hane-update-catalog-v1\0")
  const INVENTORY_DOMAIN := Ascii("hane-install-v1\0")

  /** A message signed as an inventory is never a message of a catalog, and conversely. */
  lemma DomainsNeverMeet(x: Bytes, y: Bytes)
    ensures INVENTORY_DOMAIN + x != CATALOG_DOMAIN + y
  {
    assert (INVENTORY_DOMAIN + x)[5] == 'i' as int;
    assert (CATALOG_DOMAIN + y)[5] == 'u' as int;
  }

  const SEED_LENGTH := 32

  /** JSON, base64 and Ed25519 as the verifier sees them. */
  datatype Scheme = Scheme(decode: Bytes -> Option<Json>, encode: Json -> Bytes,
                           fromBase64: string -> Option<Bytes>, toBase64: Bytes -> string,
                           check: (Bytes, Bytes, Bytes) -> bool, sign: (Bytes, Bytes) -> Bytes,
                           publicKey: Bytes -> Bytes)
  {
    /** Documents the tooling writes are read back, and so are base64 bytes; signatures verify. */
    ghost predicate Lawful() {
      && (forall j :: Printable(j) ==> decode(encode(j)) == Some(j))
      && (forall b :: fromBase64(toBase64(b)) == Some(b))
      && (forall seed, m {:trigger sign(seed, m)} :: |seed| == SEED_LENGTH ==>
            |sign(seed, m)| == SIGNATURE_LENGTH && check(publicKey(seed), sign(seed, m), m))
    }
  }

  type Trust = map<string, Bytes>

  predicate WellShaped(entry: Json) {
    entry.Obj? && entry.fields.Keys == {KeyId, SignatureBase64}
  }

  /** Whether the entry is a signature over `message` by a trusted key. */
  predicate Signs(scheme: Scheme, trust: Trust, entry: Json, message: Bytes) {
    && WellShaped(entry)
    && entry.fields[KeyId].Str? && entry.fields[KeyId].s in trust && entry.fields[SignatureBase64].Str?
    && var signature := scheme.fromBase64(entry.fields[SignatureBase64].s);
       signature.Some? && |signature.value| == SIGNATURE_LENGTH
       && scheme.check(trust[entry.fields[KeyId].s], signature.value, message)
  }

  function Entries(scheme: Scheme, file: Bytes): Option<seq<Json>> {
    if |file| > MAX_SIGNATURE_BYTES then None
    else
      var document := scheme.decode(file);
      if document.Some? && document.value.Obj? && document.value.fields.Keys == {Schema, Signatures}
         && IsNumber(document.value.fields[Schema], SCHEMA) && document.value.fields[Signatures].List?
         && 1 <= |document.value.fields[Signatures].items| <= MAX_SIGNATURES
      then Some(document.value.fields[Signatures].items)
      else None
  }

  /** Entry `n` decides: it signs, and the ones before it are well shaped but do not. */
  predicate Decides(scheme: Scheme, trust: Trust, entries: seq<Json>, message: Bytes, n: nat) {
    && n < |entries| && Signs(scheme, trust, entries[n], message)
    && forall i :: 0 <= i < n ==> WellShaped(entries[i]) && !Signs(scheme, trust, entries[i], message)
  }

  ghost predicate Signed(scheme: Scheme, trust: Trust, domain: Bytes, payload: Bytes, file: Bytes) {
    var entries := Entries(scheme, file);
    entries.Some? && exists n :: Decides(scheme, trust, entries.value, domain + payload, n)
  }

  method VerifySignature(scheme: Scheme, trust: Trust, domain: Bytes, payload: Bytes, file: Bytes)
    returns (r: Result<string, ReleaseError>)
    ensures r.Ok? <==> Signed(scheme, trust, domain, payload, file)
    ensures r.Ok? ==> r.value in trust
  {
    var entries := Entries(scheme, file);
    if entries.None? {
      return Err(ReleaseError);
    }
    var message := domain + payload;
    for i := 0 to |entries.value|
      invariant forall j :: 0 <= j < i ==>
                WellShaped(entries.value[j]) && !Signs(scheme, trust, entries.value[j], message)
    {
      var entry := entries.value[i];
      if !WellShaped(entry) {
        return Err(ReleaseError);
      }
      if Signs(scheme, trust, entry, message) {
        assert Decides(scheme, trust, entries.value, message, i);
        return Ok(entry.fields[KeyId].s);
      }
    }
    return Err(ReleaseError);
  }

  function SignatureDocument(scheme: Scheme, domain: Bytes, payload: Bytes, keyId: string, seed: Bytes): Json {
    Obj(map[Schema := Int(SCHEMA),
            Signatures := List([Obj(map[KeyId := Str(keyId),
                                        SignatureBase64 :=
                                           Str(scheme.toBase64(scheme.sign(seed, domain + payload)))])])])
  }

  function SignatureFile(scheme: Scheme, domain: Bytes, payload: Bytes, keyId: string, seed: Bytes): Bytes {
    scheme.encode(SignatureDocument(scheme, domain, payload, keyId, seed))
  }

  lemma SignatureDocumentPrints(scheme: Scheme, domain: Bytes, payload: Bytes, keyId: string, seed: Bytes)
    ensures Printable(SignatureDocument(scheme, domain, payload, keyId, seed))
  {
    var entry := SignatureDocument(scheme, domain, payload, keyId, seed).fields[Signatures].items[0];
    assert Printable(entry.fields[KeyId]) && Printable(entry.fields[SignatureBase64]);
    assert Printable(entry);
  }

  /** What was signed verifies, for whoever trusts that key under that name. */
  lemma SignedVerifies(scheme: Scheme, trust: Trust, domain: Bytes, payload: Bytes, keyId: string, seed: Bytes)
    requires scheme.Lawful() && |seed| == SEED_LENGTH && keyId in trust && trust[keyId] == scheme.publicKey(seed)
    requires |SignatureFile(scheme, domain, payload, keyId, seed)| <= MAX_SIGNATURE_BYTES
    ensures Signed(scheme, trust, domain, payload, SignatureFile(scheme, domain, payload, keyId, seed))
  {
    var document := SignatureDocument(scheme, domain, payload, keyId, seed);
    SignatureDocumentPrints(scheme, domain, payload, keyId, seed);
    assert scheme.decode(SignatureFile(scheme, domain, payload, keyId, seed)) == Some(document);
    var signature := scheme.sign(seed, domain + payload);
    assert scheme.fromBase64(scheme.toBase64(signature)) == Some(signature);
    assert Decides(scheme, trust, document.fields[Signatures].items, domain + payload, 0);
  }

  /** Signatures nobody else can make: whatever a key verifies was signed with its seed. */
  ghost predicate Unforgeable(scheme: Scheme, trust: Trust, issued: iset<Bytes>) {
    forall key, signature, message :: key in trust && scheme.check(trust[key], signature, message) ==> message in issued
  }

  /** If only inventories were ever signed, no signature file makes any bytes a catalog. */
  lemma InventorySignatureIsNoCatalogSignature(scheme: Scheme, trust: Trust, issued: iset<Bytes>, payload: Bytes,
                                               file: Bytes)
    requires Unforgeable(scheme, trust, issued)
    requires forall m :: m in issued ==> exists inventory :: m == INVENTORY_DOMAIN + inventory
    ensures !Signed(scheme, trust, CATALOG_DOMAIN, payload, file)
  {
    if Signed(scheme, trust, CATALOG_DOMAIN, payload, file) {
      var entries := Entries(scheme, file).value;
      var n :| Decides(scheme, trust, entries, CATALOG_DOMAIN + payload, n);
      assert CATALOG_DOMAIN + payload in issued;
      var inventory :| CATALOG_DOMAIN + payload == INVENTORY_DOMAIN + inventory;
      DomainsNeverMeet(inventory, payload);
      assert false;
    }
  }
}
