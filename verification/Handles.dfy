/** Composite WebAuthn handles: the tenant id, a colon, and 32 random bytes in base64url. */
module Handles {
  import opened Prelude
  import opened Base64Url

  const HANDLE_BYTES: nat := 32

  /** What a parse gives: the tenant and the random portion, or the handle as it came with an error. */
  datatype Parsed = Composite(tenant: string, portion: string) | Malformed(handle: string)

  function GenerateHandleWithTenant(tenant: string, random: seq<Byte>): string
    requires |random| == HANDLE_BYTES
  {
    tenant + ":" + Raw(random)
  }

  /** The first index at or after i that holds a colon, or the length. */
  function ColonFrom(s: string, i: nat): (k: nat)
    requires i <= |s|
    ensures i <= k <= |s|
    ensures k < |s| ==> s[k] == ':'
    ensures forall m :: i <= m < k ==> s[m] != ':'
    decreases |s| - i
  {
    if i == |s| || s[i] == ':' then i else ColonFrom(s, i + 1)
  }

  function ParseHandle(handle: string): Parsed {
    var k := ColonFrom(handle, 0);
    if k == |handle| || k == 0 || k + 1 == |handle| then Malformed(handle)
    else Composite(handle[..k], handle[k + 1..])
  }

  predicate ParsesTo(handle: string, tenant: string) {
    ParseHandle(handle).Composite? && ParseHandle(handle).tenant == tenant
  }

  lemma ParseSplitsAtFirstColon(head: string, tail: string)
    requires ':' !in head
    ensures ParseHandle(head + ":" + tail)
         == if head == "" || tail == "" then Malformed(head + ":" + tail) else Composite(head, tail)
  {
    var s := head + ":" + tail;
    var k := ColonFrom(s, 0);
    assert s[|head|] == ':';
    assert forall m :: 0 <= m < |head| ==> s[m] == head[m];
    assert k == |head|;
    assert s[..k] == head && s[k + 1..] == tail;
  }

  lemma RawIsNotEmpty(b: seq<Byte>)
    requires b != []
    ensures Raw(b) != ""
  {
  }

  lemma ParseWithColon(tenant: string, raw: string)
    requires ':' in tenant && raw != ""
    ensures var p := ParseHandle(tenant + ":" + raw);
            && (p.Malformed? <==> tenant[0] == ':')
            && (p.Composite? ==> p.tenant != tenant)
  {
    var k := ColonFrom(tenant, 0);
    var head, tail := tenant[..k], tenant[k + 1..] + ":" + raw;
    assert tenant + ":" + raw == head + ":" + tail;
    hide ParseHandle;
    ParseSplitsAtFirstColon(head, tail);
  }

  /**
   The parse recovers the tenant and the random bytes exactly when the tenant is nonempty and has no
   colon; an empty tenant, or one that starts with a colon, is refused.
   */
  lemma ParseRecoversTenant(tenant: string, random: seq<Byte>)
    requires |random| == HANDLE_BYTES
    ensures var p := ParseHandle(GenerateHandleWithTenant(tenant, random));
            && (ParsesTo(GenerateHandleWithTenant(tenant, random), tenant) <==> tenant != "" && ':' !in tenant)
            && (p.Composite? && p.tenant == tenant ==> ReadRaw(p.portion) == Some(random))
            && (p.Malformed? <==> tenant == "" || tenant[0] == ':')
  {
    RawIsNotEmpty(random);
    ReadRawIsInverse(random);
    hide Raw, ReadRaw, ParseHandle;
    if ':' in tenant {
      ParseWithColon(tenant, Raw(random));
    } else {
      ParseSplitsAtFirstColon(tenant, Raw(random));
    }
  }

  lemma SameLength(b: seq<Byte>)
    ensures |Raw(b)| == RawLength(|b|)
  {
  }

  /** Different tenants or different random bytes give different handles, whatever the tenants contain. */
  lemma HandlesAreDistinct(t: string, r: seq<Byte>, t': string, r': seq<Byte>)
    requires |r| == |r'| == HANDLE_BYTES
    requires GenerateHandleWithTenant(t, r) == GenerateHandleWithTenant(t', r')
    ensures t == t' && r == r'
  {
    SameLength(r);
    SameLength(r');
    ReadRawIsInverse(r);
    ReadRawIsInverse(r');
    hide Raw, ReadRaw, RawLength;
    var h, h' := t + ":" + Raw(r), t' + ":" + Raw(r');
    assert |t| == |t'|;
    assert h[..|t|] == t && h'[..|t|] == t';
    assert h[|t| + 1..] == Raw(r) && h'[|t| + 1..] == Raw(r');
  }
}
