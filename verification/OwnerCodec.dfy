/**
 The ownership record: strings stored in fixed, NUL-padded fields. Reading trims the
 padding and writes the result again to compare, so that only records this code
 could have written are believed.
*/
module OwnerCodec {
  import opened PolicySets
  import opened Options

  type Bytes = seq<U8>

  const POD_UID := 64
  const CONTAINER_ID := 64
  const PATH := 512

  datatype Owner = Owner(cgroup: Cgroup, device: U64, podUID: Bytes, containerID: Bytes, path: Bytes)
  datatype Record = Record(cgroup: Cgroup, device: U64, podUID: Bytes, containerID: Bytes, path: Bytes) {
    /** The fields have their fixed sizes. */
    predicate Sized() {
      |podUID| == POD_UID && |containerID| == CONTAINER_ID && |path| == PATH
    }
  }

  function Zeros(n: nat): (b: Bytes)
    ensures |b| == n && forall i :: 0 <= i < n ==> b[i] == 0
  {
    seq(n, _ => 0)
  }

  /** copy(field[:], value) */
  function Pad(value: Bytes, size: nat): (field: Bytes)
    requires |value| <= size
    ensures |field| == size
  {
    value + Zeros(size - |value|)
  }

  /** strings.TrimRight(field, NUL) */
  function Trim(field: Bytes): Bytes {
    if field == [] || field[|field| - 1] != 0 then field else Trim(field[..|field| - 1])
  }

  predicate NoNul(value: Bytes) {
    forall i :: 0 <= i < |value| ==> value[i] != 0
  }

  lemma {:induction false} TrimPad(value: Bytes, n: nat)
    requires NoNul(value)
    ensures Trim(value + Zeros(n)) == value
  {
    if n == 0 {
      assert value + Zeros(0) == value;
    } else {
      TrimPad(value, n - 1);
      var field := value + Zeros(n);
      assert field[..|field| - 1] == value + Zeros(n - 1);
    }
  }

  lemma {:induction false} TrimIsPrefix(field: Bytes)
    ensures |Trim(field)| <= |field| && field == Trim(field) + Zeros(|field| - |Trim(field)|)
  {
    if field != [] && field[|field| - 1] == 0 {
      var shorter := field[..|field| - 1];
      TrimIsPrefix(shorter);
      assert field == shorter + [0];
      assert field == Trim(field) + Zeros(|field| - |Trim(field)|);
    }
  }

  /** The checks of ownerToDisk; `clean` stands for the checks on the form of the path. */
  predicate Storable(o: Owner, clean: Bytes -> bool) {
    && o.cgroup != 0
    && o.path != [] && clean(o.path) && NoNul(o.path) && |o.path| < PATH
    && |o.podUID| < POD_UID && |o.containerID| <= CONTAINER_ID
    && NoNul(o.podUID) && NoNul(o.containerID)
  }

  function ToDisk(o: Owner, clean: Bytes -> bool): Option<Record> {
    if !Storable(o, clean) then None
    else Some(Record(o.cgroup, o.device, Pad(o.podUID, POD_UID), Pad(o.containerID, CONTAINER_ID), Pad(o.path, PATH)))
  }

  function FromDisk(r: Record, clean: Bytes -> bool): Option<Owner> {
    var o := Owner(r.cgroup, r.device, Trim(r.podUID), Trim(r.containerID), Trim(r.path));
    if ToDisk(o, clean) == Some(r) then Some(o) else None
  }

  /** Every owner that is stored is read back as it was. */
  lemma OwnerRoundTrip(o: Owner, clean: Bytes -> bool)
    requires Storable(o, clean)
    ensures ToDisk(o, clean).Some? && ToDisk(o, clean).value.Sized()
    ensures FromDisk(ToDisk(o, clean).value, clean) == Some(o)
  {
    TrimPad(o.podUID, POD_UID - |o.podUID|);
    TrimPad(o.containerID, CONTAINER_ID - |o.containerID|);
    TrimPad(o.path, PATH - |o.path|);
  }

  /** A record is believed exactly when it is the record of some storable owner; so no two
      records are read as the same owner. */
  lemma RecordsAreCanonical(r: Record, clean: Bytes -> bool)
    requires r.Sized()
    ensures FromDisk(r, clean).Some? <==> exists o :: Storable(o, clean) && ToDisk(o, clean) == Some(r)
    ensures FromDisk(r, clean).Some? ==> ToDisk(FromDisk(r, clean).value, clean) == Some(r)
  {
    if o :| Storable(o, clean) && ToDisk(o, clean) == Some(r) {
      OwnerRoundTrip(o, clean);
    }
    if FromDisk(r, clean).Some? {
      var o := FromDisk(r, clean).value;
      assert Storable(o, clean) && ToDisk(o, clean) == Some(r);
    }
  }

  /** What a sized record fails on: an identity that may not be stored, or a NUL inside a field. */
  lemma BelievedIff(r: Record, clean: Bytes -> bool)
    requires r.Sized()
    ensures FromDisk(r, clean).Some? <==>
              Storable(Owner(r.cgroup, r.device, Trim(r.podUID), Trim(r.containerID), Trim(r.path)), clean)
  {
    TrimIsPrefix(r.podUID);
    TrimIsPrefix(r.containerID);
    TrimIsPrefix(r.path);
  }

  /** The field holds n bytes of text and is zero from there on. */
  predicate IsText(field: Bytes, n: nat) {
    && n <= |field|
    && (forall i :: 0 <= i < n ==> field[i] != 0)
    && (forall i :: n <= i < |field| ==> field[i] == 0)
  }

  lemma TextIsTrimmed(field: Bytes)
    ensures NoNul(Trim(field)) <==> IsText(field, |Trim(field)|)
    ensures forall n: nat :: IsText(field, n) ==> n == |Trim(field)| && field[..n] == Trim(field)
  {
    TrimIsPrefix(field);
    forall n: nat | IsText(field, n)
      ensures n == |Trim(field)| && field[..n] == Trim(field)
    {
      TrimPad(field[..n], |field| - n);
      assert field == field[..n] + Zeros(|field| - n);
    }
  }

  /** Which records are believed, byte by byte: a cgroup; a path of 1 to 511 bytes in good form, a pod
      of at most 63 and a container of at most 64; each without a NUL, and nothing but NULs after it. */
  lemma BelievedMeans(r: Record, clean: Bytes -> bool)
    requires r.Sized()
    ensures FromDisk(r, clean).Some? <==>
              && r.cgroup > 0
              && (exists n: nat :: 0 < n <= 511 && IsText(r.path, n) && clean(r.path[..n]))
              && (exists n: nat :: n <= 63 && IsText(r.podUID, n))
              && (exists n: nat :: n <= 64 && IsText(r.containerID, n))
  {
    BelievedIff(r, clean);
    TextIsTrimmed(r.path);
    TextIsTrimmed(r.podUID);
    TextIsTrimmed(r.containerID);
    TrimIsPrefix(r.path);
    assert r.path[..|Trim(r.path)|] == Trim(r.path);
  }
}
