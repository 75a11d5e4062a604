/** Serializing a stored bundle with the serializer of its protocol version. */
module BundleSerializer {
  import opened Bundles
  import Bundle6
  import Bundle7

  /** A bundle in storage, in the form that the serializer for its version looks at. */
  datatype Stored =
    | Version6(b6: Bundle6.Bundle6)
    | Version7(b7: Bundle)
    | OtherVersion(version: nat)

  ghost predicate Valid(x: Stored) {
    match x
    case Version6(b) => b.version == 6 && Bundle6.WellTyped(b)
    case Version7(b) => b.version == 7 && Bundle7.CrcTypesOk(b)
    case OtherVersion(version) => version != 6 && version != 7
  }

  /** Whether there is a serializer for the version. */
  predicate Accepted(x: Stored) { !x.OtherVersion? }

  /** Whether the bundle has a wire format at all: a BPv7 bundle needs EIDs that can be written. */
  predicate Whole(scan: Bundle7.Scan, x: Stored) { x.Version6? || (x.Version7? && Bundle7.EidsFit(scan, x.b7)) }

  /** What reaches the link, if it takes everything. */
  ghost function Wire(scan: Bundle7.Scan, x: Stored): seq<Byte>
    requires Valid(x)
  {
    match x
    case Version6(b) => Bundle6.Bytes(b)
    case Version7(b) => if Bundle7.EidsFit(scan, b) then Bundle7.Bytes(scan, b) else Bundle7.Stump(scan, b)
    case OtherVersion(_) => []
  }

  /**
   `bundle_serialize`: the result says only that there is a serializer for the version. The results of the two
   serializers, returned here as `whole`, are dropped.
   */
  method BundleSerialize(scan: Bundle7.Scan, x: Stored) returns (result: bool, whole: bool, out: seq<Byte>)
    requires Valid(x)
    ensures result <==> Accepted(x)
    ensures whole <==> Whole(scan, x)
    ensures out == Wire(scan, x)
  {
    match x
    case Version6(b) =>
      out := Bundle6.Serialize(b);
      result, whole := true, true;
    case Version7(b) =>
      whole, out := Bundle7.Serialize(scan, b);
      result := true;
    case OtherVersion(_) => result, whole, out := false, false, [];
  }

  /** An EID of the scheme `dtn` can be written if and only if it has at most 128 characters. */
  lemma {:induction false} DtnEidFits(scan: Bundle7.Scan, eid: string)
    requires Bundle7.StartsWith(eid, "dtn:")
    ensures Bundle7.EidBytes(scan, eid).Some? <==> |eid| <= 128
  {
  }

  /** What is left of a bundle that cannot be written is shorter than the size that was announced to the link. */
  lemma {:induction false} AnnouncedTooMuch(scan: Bundle7.Scan, b: Bundle)
    requires !Bundle7.EidsFit(scan, b) && b.primaryLength == Bundle7.PrimarySize(scan, b)
    ensures |Bundle7.Stump(scan, b)| < Bundle7.SerializedSize(b)
  {
    Bundle7.HeadSize(0, b.version);
    Bundle7.HeadSize(0, Bundle7.V7Flags(b.flags));
    Bundle7.HeadSize(0, b.crcType);
    Bundle7.UintSizeGrows(Bundle7.V7Flags(b.flags), b.flags);
    if Bundle7.EidBytes(scan, b.destination).Some? { Bundle7.EidSizeExact(scan, b.destination); }
    if Bundle7.EidBytes(scan, b.source).Some? { Bundle7.EidSizeExact(scan, b.source); }
  }
}
