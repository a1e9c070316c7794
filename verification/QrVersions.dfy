/** Level M block structure of QR versions 1 to 10 and the choice of a version,
  from apps/web/src/lib/qr.ts.
 */
module QrVersions {
  import opened Outcomes

  datatype VersionSpec = VersionSpec(ecPerBlock: nat, groups: seq<(nat, nat)>, alignment: seq<nat>)

  const MIN_VERSION: nat := 1
  const MAX_VERSION: nat := 10
  const MODE_BYTE: nat := 4
  const PAD_BYTES: seq<nat> := [0xec, 0x11]

  predicate IsVersion(version: nat) {
    MIN_VERSION <= version <= MAX_VERSION
  }

  function Spec(version: nat): VersionSpec
    requires IsVersion(version)
  {
    match version
    case 1 => VersionSpec(10, [(1, 16)], [])
    case 2 => VersionSpec(16, [(1, 28)], [6, 18])
    case 3 => VersionSpec(26, [(1, 44)], [6, 22])
    case 4 => VersionSpec(18, [(2, 32)], [6, 26])
    case 5 => VersionSpec(24, [(2, 43)], [6, 30])
    case 6 => VersionSpec(16, [(4, 27)], [6, 34])
    case 7 => VersionSpec(18, [(4, 31)], [6, 22, 38])
    case 8 => VersionSpec(22, [(2, 38), (2, 39)], [6, 24, 42])
    case 9 => VersionSpec(22, [(3, 36), (2, 37)], [6, 26, 46])
    case _ => VersionSpec(26, [(4, 43), (1, 44)], [6, 28, 50])
  }

  function Size(version: nat): nat {
    17 + version * 4
  }

  function CountBits(version: nat): nat {
    if version < 10 then 8 else 16
  }

  function GroupTotal(groups: seq<(nat, nat)>): nat {
    if groups == [] then 0
    else GroupTotal(groups[..|groups| - 1]) + groups[|groups| - 1].0 * groups[|groups| - 1].1
  }

  function DataCodewords(version: nat): nat
    requires IsVersion(version)
  {
    GroupTotal(Spec(version).groups)
  }

  function BlockCount(version: nat): nat
    requires IsVersion(version)
  {
    var g := Spec(version).groups;
    if |g| == 1 then g[0].0 else g[0].0 + g[1].0
  }

  /** The data length of every block, in order. */
  function BlockLengths(groups: seq<(nat, nat)>): seq<nat> {
    if groups == [] then []
    else BlockLengths(groups[..|groups| - 1]) + seq(groups[|groups| - 1].0, _ => groups[|groups| - 1].1)
  }

  /** Header and data of `length` bytes fit the version. */
  predicate Fits(version: nat, length: nat)
    requires IsVersion(version)
  {
    4 + CountBits(version) + length * 8 <= DataCodewords(version) * 8
  }

  lemma OneGroup(group: (nat, nat))
    ensures GroupTotal([group]) == group.0 * group.1
    ensures BlockLengths([group]) == seq(group.0, _ => group.1)
  {
    assert [group][..0] + [group] == [group];
  }

  /** The published data capacities of level M. */
  lemma DataCapacities(version: nat)
    requires IsVersion(version)
    ensures DataCodewords(version) == [16, 28, 44, 64, 86, 108, 124, 154, 182, 216][version - 1]
  {
    var g := Spec(version).groups;
    if |g| == 1 {
      OneGroup(g[0]);
      assert g == [g[0]];
    } else {
      OneGroup(g[0]);
      assert g[..1] == [g[0]];
    }
  }

  /** The data is shared out evenly: the blocks of the second group are one codeword longer. */
  lemma BlocksAreEven(version: nat)
    requires IsVersion(version)
    ensures var g, total, count := Spec(version).groups, DataCodewords(version), BlockCount(version);
      && count == [1, 1, 1, 2, 2, 4, 4, 4, 5, 5][version - 1] && 1 <= |g| <= 2 && g[0].1 == total / count
      && if |g| == 1 then total % count == 0 else g[1] == (total % count, total / count + 1)
  {
    DataCapacities(version);
  }

  /** The centres of the alignment patterns: from module 6 to the seventh from the end, evenly spaced. */
  lemma AlignmentCentres(version: nat)
    requires IsVersion(version)
    ensures Spec(version).alignment ==
      if version == 1 then [] else if version < 7 then [6, Size(version) - 7]
      else [6, (6 + Size(version) - 7) / 2, Size(version) - 7]
  {
  }

  /** The smallest version that holds the data, or none. */
  method ChooseVersion(byteLength: nat) returns (version: Option<nat>)
    ensures version.None? <==> byteLength > 213
    ensures version.Some? ==> IsVersion(version.value) && Fits(version.value, byteLength)
    ensures version.Some? ==> forall v :: MIN_VERSION <= v < version.value ==> !Fits(v, byteLength)
  {
    for candidate: nat := MIN_VERSION to MAX_VERSION + 1
      invariant forall v :: MIN_VERSION <= v < candidate ==> !Fits(v, byteLength)
    {
      DataCapacities(candidate);
      var available := DataCodewords(candidate) * 8;
      var needed := 4 + CountBits(candidate) + byteLength * 8;
      if needed <= available {
        return Some(candidate);
      }
    }
    assert !Fits(10, byteLength);
    DataCapacities(10);
    return None;
  }
}
