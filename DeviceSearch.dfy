/**
 * Finding the device under test again (device.c): the identity test of two
 * device paths and the search over the block devices the system lists.
 *
 * The system is described abstractly: what stat() reports for a path,
 * whether a path can be reopened read/write, the block devices udev lists
 * with their attributes, and, per device, what the two data comparisons
 * (compare_bod_mod_data and compare_device_uuids, modelled in DeviceCompare)
 * return for it.
 */
module DeviceSearch {
  datatype Option<T> = None | Some(value: T)

  const TWO_TO_64: nat := 0x1_0000_0000_0000_0000

  /** The file type bits of st_mode that matter here. */
  datatype FileType = BlockDevice | CharDevice | OtherFile

  /** What stat() gives for a path: ENOENT, another error, or the node's type and device number. */
  datatype StatResult = NoEntry | StatError | Node(kind: FileType, rdev: nat)

  predicate IsDevice(s: StatResult)
  {
    s.Node? && (s.kind == BlockDevice || s.kind == CharDevice)
  }

  // ---------------------------------------------------------------------
  // are_devices_identical
  // ---------------------------------------------------------------------

  /**
   * are_devices_identical as written: the type test rejects a pair unless
   * each node is a block device AND a character device at the same time.
   */
  function AreDevicesIdenticalAsWritten(s1: StatResult, s2: StatResult): (r: int)
    ensures r == -1 || r == 1
  {
    match (s1, s2)
    case (NoEntry, _) => 1
    case (StatError, _) => -1
    case (Node(_, _), NoEntry) => 1
    case (Node(_, _), StatError) => -1
    case (Node(k1, d1), Node(k2, d2)) =>
      if k1 != BlockDevice || k2 != BlockDevice || k1 != CharDevice || k2 != CharDevice then 1
      else if k1 != k2 then 1
      else if d1 != d2 then 1
      else 0
  }

  /** The same path, stat-ed twice, is one block device, yet the test as written calls it different. */
  lemma AsWrittenRejectsSameDevice()
    ensures AreDevicesIdenticalAsWritten(Node(BlockDevice, 0x0811), Node(BlockDevice, 0x0811)) == 1
    ensures AreDevicesIdentical(Node(BlockDevice, 0x0811), Node(BlockDevice, 0x0811)) == 0
  {
  }

  /**
   * are_devices_identical with the type test the comments describe: each
   * path must name a block or a character device. 0 means the two paths
   * name the same device, 1 that they do not (or one does not exist), -1
   * that stat() failed otherwise.
   */
  function AreDevicesIdentical(s1: StatResult, s2: StatResult): (r: int)
    ensures r == 0 <==> IsDevice(s1) && IsDevice(s2) && s1.kind == s2.kind && s1.rdev == s2.rdev
    ensures r == -1 <==> s1.StatError? || (s1.Node? && s2.StatError?)
    ensures r == -1 || r == 0 || r == 1
  {
    match (s1, s2)
    case (NoEntry, _) => 1
    case (StatError, _) => -1
    case (Node(_, _), NoEntry) => 1
    case (Node(_, _), StatError) => -1
    case (Node(k1, d1), Node(k2, d2)) =>
      if !(k1 == BlockDevice || k1 == CharDevice) || !(k2 == BlockDevice || k2 == CharDevice) then 1
      else if k1 != k2 then 1
      else if d1 != d2 then 1
      else 0
  }

  /** Identity is an equivalence on device nodes: reflexive, symmetric and transitive. */
  lemma IdentityIsEquivalence(s1: StatResult, s2: StatResult, s3: StatResult)
    ensures IsDevice(s1) ==> AreDevicesIdentical(s1, s1) == 0
    ensures AreDevicesIdentical(s1, s2) == 0 ==> AreDevicesIdentical(s2, s1) == 0
    ensures AreDevicesIdentical(s1, s2) == 0 && AreDevicesIdentical(s2, s3) == 0 ==> AreDevicesIdentical(s1, s3) == 0
  {
  }

  // ---------------------------------------------------------------------
  // find_device
  // ---------------------------------------------------------------------

  datatype Errno = EFAULT | EINVAL | EINTR | ENODEV | ELIBACC | ENOTUNIQ

  /** A device handle for `name`, NULL without an error code, or NULL with one. */
  datatype SearchResult = Found(name: string) | NoMatch | Failed(errno: Errno)

  datatype SearchParams = SearchParams(
    mustMatchPreferred: bool,
    preferredName: Option<string>,
    logicalSize: nat,
    hasExpectedUuid: bool)

  /**
   * One block device udev lists: whether its udev record could be built,
   * its "size" attribute (in 512-byte units), its device node, whether it
   * opens read-only, and what the two data comparisons return for it.
   */
  datatype Candidate = Candidate(
    hasRecord: bool,
    sizeAttr: Option<nat>,
    devNode: Option<string>,
    opens: bool,
    bodModResult: int,
    uuidResult: int)

  /**
   * The preferred device probed directly: whether it opens, the size the
   * size query reports (None when it fails), and the comparison results.
   */
  datatype Probe = Probe(opens: bool, size: Option<nat>, bodModResult: int, uuidResult: int)

  datatype System = System(
    udevOk: bool,
    candidates: seq<Candidate>,
    preferredProbe: Probe,
    stat: string -> StatResult,
    reopens: string -> bool)

  /** The size udev reports, in bytes, as the 64-bit product computes it. */
  function ReportedSize(sizeAttr: nat): nat
  {
    (sizeAttr * 512) % TWO_TO_64
  }

  /** The data comparisons recognise the device: BOD/MOD data, or failing that the UUIDs if one is expected. */
  predicate Recognised(bodModResult: int, uuidResult: int, hasExpectedUuid: bool)
  {
    bodModResult == 0 || (hasExpectedUuid && uuidResult == 0)
  }

  /** A listed device is a match: it has a node, the expected size, opens, and its data is recognised. */
  predicate Accepted(c: Candidate, p: SearchParams)
  {
    && c.hasRecord && c.sizeAttr.Some? && c.devNode.Some?
    && ReportedSize(c.sizeAttr.value) == p.logicalSize
    && c.opens
    && Recognised(c.bodModResult, c.uuidResult, p.hasExpectedUuid)
  }

  /** The device nodes of the accepted devices, in the order udev lists them. */
  function MatchedNames(cs: seq<Candidate>, p: SearchParams): seq<string>
  {
    if cs == [] then []
    else
      var last := cs[|cs| - 1];
      MatchedNames(cs[..|cs| - 1], p) + (if Accepted(last, p) then [last.devNode.value] else [])
  }

  /** A name is matched exactly when some listed device with that node is accepted. */
  lemma {:induction false} MatchedNamesAreAccepted(cs: seq<Candidate>, p: SearchParams, n: string)
    ensures n in MatchedNames(cs, p) <==> exists c :: c in cs && Accepted(c, p) && c.devNode == Some(n)
  {
    if cs != [] {
      var init := cs[..|cs| - 1];
      MatchedNamesAreAccepted(init, p, n);
      assert cs == init + [cs[|cs| - 1]];
      if exists c :: c in cs && Accepted(c, p) && c.devNode == Some(n) {
        var c :| c in cs && Accepted(c, p) && c.devNode == Some(n);
        if c != cs[|cs| - 1] {
          assert c in init;
        }
      }
    }
  }

  /** A listed device whose reported size is not the expected one is never matched. */
  lemma SizeMismatchRejected(cs: seq<Candidate>, p: SearchParams, n: string)
    requires forall c :: c in cs && c.devNode == Some(n) ==> c.sizeAttr.None? || ReportedSize(c.sizeAttr.value) != p.logicalSize
    ensures n !in MatchedNames(cs, p)
  {
    MatchedNamesAreAccepted(cs, p, n);
  }

  /** The enumeration loop of find_device: each listed device is examined in turn and kept if it matches. */
  method CollectMatches(cs: seq<Candidate>, p: SearchParams) returns (matched: seq<string>)
    ensures matched == MatchedNames(cs, p)
  {
    matched := [];
    var k := 0;
    while k < |cs|
      invariant k <= |cs|
      invariant matched == MatchedNames(cs[..k], p)
    {
      var c := cs[k];
      assert cs[..k + 1][..k] == cs[..k];
      k := k + 1;
      if !c.hasRecord || c.sizeAttr.None? || c.devNode.None? {
        continue;
      }
      if ReportedSize(c.sizeAttr.value) != p.logicalSize {
        continue;
      }
      if !c.opens {
        continue;
      }
      var ret := c.bodModResult;
      if ret != 0 {
        if p.hasExpectedUuid {
          ret := c.uuidResult;
        }
        if ret != 0 {
          continue;
        }
      }
      matched := matched + [c.devNode.value];
    }
    assert cs[..k] == cs;
  }

  /** The preferred name names the same device as `name`. */
  predicate IsPreferred(preferred: string, name: string, stat: string -> StatResult)
  {
    AreDevicesIdentical(stat(preferred), stat(name)) == 0
  }

  /** The disambiguation scan: the index of the last match that is the preferred device, or -1. */
  method FindMatchIndex(preferred: string, matched: seq<string>, stat: string -> StatResult) returns (index: int)
    ensures -1 <= index < |matched|
    ensures index == -1 <==> forall i :: 0 <= i < |matched| ==> !IsPreferred(preferred, matched[i], stat)
    ensures index >= 0 ==> IsPreferred(preferred, matched[index], stat)
                           && forall j :: index < j < |matched| ==> !IsPreferred(preferred, matched[j], stat)
  {
    index := -1;
    var i := 0;
    while i < |matched|
      invariant i <= |matched| && -1 <= index < i
      invariant index == -1 ==> forall j :: 0 <= j < i ==> !IsPreferred(preferred, matched[j], stat)
      invariant index >= 0 ==> IsPreferred(preferred, matched[index], stat)
      invariant forall j :: index < j < i ==> !IsPreferred(preferred, matched[j], stat)
    {
      if AreDevicesIdentical(stat(preferred), stat(matched[i])) == 0 {
        index := i;
      }
      i := i + 1;
    }
  }

  /** The last step of find_device: the chosen device must stat and reopen read/write. */
  function Reopened(name: string, sys: System): SearchResult
  {
    if !sys.stat(name).Node? then Failed(EINTR)
    else if !sys.reopens(name) then Failed(EINTR)
    else Found(name)
  }

  /**
   * find_device. `params` is None for a NULL argument. With
   * must-match set, only the preferred device is probed; otherwise every
   * block device udev lists is examined and the matches disambiguated.
   */
  method FindDevice(params: Option<SearchParams>, sys: System) returns (r: SearchResult)
    ensures params.None? ==> r == Failed(EFAULT)
    ensures params.Some? && params.value.mustMatchPreferred && params.value.preferredName.None? ==> r == Failed(EINVAL)
    // Must-match: the preferred device is returned whatever its data compares to.
    ensures params.Some? && params.value.mustMatchPreferred && params.value.preferredName.Some? ==>
      var name := params.value.preferredName.value;
      var probe := sys.preferredProbe;
      if !probe.opens || probe.size.None? then r == Failed(EINTR)
      else if probe.size.value != params.value.logicalSize then r == Failed(ENODEV)
      else r == Reopened(name, sys)
    // Search: zero matches, a single match, or the preferred one among several.
    ensures params.Some? && !params.value.mustMatchPreferred ==>
      var p := params.value;
      var ms := MatchedNames(sys.candidates, p);
      if !sys.udevOk || sys.candidates == [] then r == Failed(ELIBACC)
      else if |ms| == 0 then r == NoMatch
      else if |ms| == 1 then r == Reopened(ms[0], sys)
      else if p.preferredName.None? || forall i :: 0 <= i < |ms| ==> !IsPreferred(p.preferredName.value, ms[i], sys.stat)
        then r == Failed(ENOTUNIQ)
      else exists i :: 0 <= i < |ms| && IsPreferred(p.preferredName.value, ms[i], sys.stat)
             && (forall j :: i < j < |ms| ==> !IsPreferred(p.preferredName.value, ms[j], sys.stat))
             && r == Reopened(ms[i], sys)
  {
    if params.None? {
      return Failed(EFAULT);
    }
    var p := params.value;
    var matched: seq<string>;
    if p.mustMatchPreferred {
      if p.preferredName.None? {
        return Failed(EINVAL);
      }
      var name := p.preferredName.value;
      var probe := sys.preferredProbe;
      if !probe.opens || probe.size.None? {
        return Failed(EINTR);
      }
      if probe.size.value != p.logicalSize {
        return Failed(ENODEV);
      }
      var ret := probe.bodModResult;
      if ret != 0 {
        if p.hasExpectedUuid {
          ret := probe.uuidResult;
        }
        if ret != 0 {
          return Reopened(name, sys);
        }
      }
      matched := [name];
    } else {
      if !sys.udevOk || sys.candidates == [] {
        return Failed(ELIBACC);
      }
      matched := CollectMatches(sys.candidates, p);
    }

    var matchIndex := 0;
    if |matched| == 0 {
      return NoMatch;
    } else if |matched| > 1 {
      matchIndex := -1;
      if p.preferredName.Some? {
        matchIndex := FindMatchIndex(p.preferredName.value, matched, sys.stat);
      }
      if matchIndex == -1 {
        return Failed(ENOTUNIQ);
      }
    }
    return Reopened(matched[matchIndex], sys);
  }
}
