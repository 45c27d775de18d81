/** The two regular expressions of the ALB validator written as hand-coded
    matchers, each with the decomposition it accepts and a proof that the
    matcher accepts exactly the strings built from well-formed parts:
    - the IPv4 CIDR pattern `^([0-9]{1,3}\.){3}[0-9]{1,3}(\/([0-9]|[1-2][0-9]|3[0-2]))$`;
    - the listener pattern
      `^arn:aws[\w-]*:elasticloadbalancing:.+:listener\/app\/[\w-]+\/([\w-]+)\/([\w-]+)$`. */
module Patterns {
  import opened Results
  import opened Text

  // ---------------------------------------------------------------- IPv4 CIDR

  /** `[0-9]{1,3}`: the octet is not bounded by 255. */
  predicate IsOctetText(g: string) {
    1 <= |g| <= 3 && AllDigits(g)
  }

  /** `[0-9]|[1-2][0-9]|3[0-2]` */
  predicate IsMaskText(m: string) {
    || (|m| == 1 && IsDigit(m[0]))
    || (|m| == 2 && (m[0] == '1' || m[0] == '2') && IsDigit(m[1]))
    || (|m| == 2 && m[0] == '3' && '0' <= m[1] <= '2')
  }

  /** An IPv4 CIDR block as text: four octet texts and a mask text. */
  datatype Ipv4Cidr = Ipv4Cidr(octets: seq<string>, mask: string)

  predicate WellFormedCidr(c: Ipv4Cidr) {
    |c.octets| == 4 && (forall i :: 0 <= i < 4 ==> IsOctetText(c.octets[i])) && IsMaskText(c.mask)
  }

  function RenderCidr(c: Ipv4Cidr): string
    requires |c.octets| >= 1
  {
    Join(c.octets, '.') + "/" + c.mask
  }

  function ParseIpv4Cidr(s: string): Option<Ipv4Cidr> {
    var halves := Split(s, '/');
    if |halves| != 2 then None
    else
      var c := Ipv4Cidr(Split(halves[0], '.'), halves[1]);
      if WellFormedCidr(c) then Some(c) else None
  }

  /** `CIDR_IPV4_PATTERN.test(s)` */
  predicate IsIpv4Cidr(s: string) {
    ParseIpv4Cidr(s).Some?
  }

  /** Whatever the matcher accepts is four octet texts and a mask text in the `a.b.c.d/m` layout. */
  lemma Ipv4ParseSound(s: string, c: Ipv4Cidr)
    requires ParseIpv4Cidr(s) == Some(c)
    ensures WellFormedCidr(c) && RenderCidr(c) == s
  {
    var halves := Split(s, '/');
    JoinSplit(s, '/');
    JoinSplit(halves[0], '.');
  }

  /** Every `a.b.c.d/m` made of 1-3 digit octets and a mask text is accepted, with those parts. */
  lemma Ipv4ParseComplete(c: Ipv4Cidr)
    requires WellFormedCidr(c)
    ensures ParseIpv4Cidr(RenderCidr(c)) == Some(c)
  {
    forall i | 0 <= i < 4 ensures '.' !in c.octets[i] && '/' !in c.octets[i] {
      assert IsOctetText(c.octets[i]);
    }
    JoinAvoids(c.octets, '.', '/');
    var addr := Join(c.octets, '.');
    assert '/' !in c.mask;
    SplitAround(addr, '/', c.mask);
    SplitNoSep(addr, '/');
    SplitNoSep(c.mask, '/');
    SplitJoin(c.octets, '.');
  }

  /** Every mask text is the decimal text, without leading zeros, of a number from 0 to 32 ... */
  lemma MaskTextIsDecimal(m: string)
    requires IsMaskText(m)
    ensures AllDigits(m) && DecimalValue(m) <= 32 && DecimalText(DecimalValue(m)) == m
  {
    if |m| == 2 {
      assert m[..1] == [m[0]];
      var v := DecimalValue(m);
      assert v == 10 * DigitValue(m[0]) + DigitValue(m[1]);
      assert DecimalText(v) == DecimalText(v / 10) + [DigitChar(v % 10)];
    }
  }

  /** ... and the decimal text of every number from 0 to 32 is a mask text. */
  lemma DecimalIsMaskText(v: nat)
    requires v <= 32
    ensures IsMaskText(DecimalText(v))
  {
    if v >= 10 {
      assert DecimalText(v) == [DigitChar(v / 10)] + [DigitChar(v % 10)];
    }
  }

  /** The octets are not range-checked: any four numbers below 1000, with a
      mask up to 32, are accepted (`999.999.999.999/24` among them). */
  lemma OctetsUnbounded(a: nat, b: nat, c: nat, d: nat, m: nat)
    requires a < 1000 && b < 1000 && c < 1000 && d < 1000 && m <= 32
    ensures IsIpv4Cidr(Join([DecimalText(a), DecimalText(b), DecimalText(c), DecimalText(d)], '.') + "/" + DecimalText(m))
  {
    var octets := [DecimalText(a), DecimalText(b), DecimalText(c), DecimalText(d)];
    OctetText(a);
    OctetText(b);
    OctetText(c);
    OctetText(d);
    forall i | 0 <= i < 4 ensures IsOctetText(octets[i]) {
    }
    DecimalIsMaskText(m);
    var cidr := Ipv4Cidr(octets, DecimalText(m));
    Ipv4ParseComplete(cidr);
  }

  lemma OctetText(n: nat)
    requires n < 1000
    ensures IsOctetText(DecimalText(n))
  {
    DecimalTextShort(n);
  }

  /** A mask is required ... */
  lemma MaskRequired(s: string)
    requires '/' !in s
    ensures !IsIpv4Cidr(s)
  {
    SplitNoSep(s, '/');
  }

  /** ... and it may not exceed 32, whatever precedes it. */
  lemma MaskBounded(addr: string, v: nat)
    requires v > 32
    ensures !IsIpv4Cidr(addr + "/" + DecimalText(v))
  {
    var mask := DecimalText(v);
    assert '/' !in mask;
    SplitAround(addr, '/', mask);
    SplitNoSep(mask, '/');
    assert !IsMaskText(mask) by {
      if IsMaskText(mask) {
        MaskTextIsDecimal(mask);
        DecimalRoundTrip(v);
      }
    }
  }

  // ------------------------------------------------------------- listener ARN

  /** The pieces of `arn:aws<partition>:elasticloadbalancing:<resource>:listener/app/<albName>/<albId>/<listenerId>`;
      `resource` is the `.+` part (region and account). */
  datatype ArnParts = ArnParts(partition: string, resource: string, albName: string, albId: string, listenerId: string)

  predicate WellFormedArn(p: ArnParts) {
    && AllWordChars(p.partition)
    && IsDotPlus(p.resource)
    && IsWord(p.albName) && IsWord(p.albId) && IsWord(p.listenerId)
  }

  function ArnHead(p: ArnParts): string {
    ArnPrefix + p.partition + ServiceTag + p.resource + ListenerTag
  }

  function BuildArn(p: ArnParts): string {
    ArnHead(p) + "/" + p.albName + "/" + p.albId + "/" + p.listenerId
  }

  const ArnPrefix: string := "arn:aws"
  const ServiceTag: string := ":elasticloadbalancing:"
  const ListenerTag: string := ":listener/app"

  /** The part before the last three `/`-segments: `arn:aws<[\w-]*>:elasticloadbalancing:<.+>:listener/app`,
      giving the partition suffix and the resource. */
  function MatchArnHead(head: string): Option<(string, string)> {
    if !EndsWith(head, ListenerTag) then None
    else
      var front := head[..|head| - |ListenerTag|];
      if !StartsWith(front, ArnPrefix) then None
      else
        var tail := front[|ArnPrefix|..];
        var partition := WordPrefix(tail);
        var rest := tail[|partition|..];
        if !StartsWith(rest, ServiceTag) then None
        else Some((partition, rest[|ServiceTag|..]))
  }

  /** `ALB_LISTENER_PATTERN` applied to `s`: the three last `/`-segments are
      the ALB name, the ALB id and the listener id, and what precedes them
      must match `MatchArnHead`. */
  function MatchListenerArn(s: string): Option<ArnParts> {
    var segs := Split(s, '/');
    var k := |segs|;
    if k < 4 then None
    else
      match MatchArnHead(Join(segs[..k - 3], '/'))
      case None => None
      case Some((partition, resource)) =>
        var p := ArnParts(partition, resource, segs[k - 3], segs[k - 2], segs[k - 1]);
        if WellFormedArn(p) then Some(p) else None
  }

  lemma ArnHeadSound(head: string, partition: string, resource: string)
    requires MatchArnHead(head) == Some((partition, resource))
    ensures head == ArnPrefix + partition + ServiceTag + resource + ListenerTag
  {
    var front := head[..|head| - |ListenerTag|];
    var tail := front[|ArnPrefix|..];
    assert partition == WordPrefix(tail);
    PeelSound(head, ArnPrefix, ServiceTag, ListenerTag, partition, resource);
  }

  /** Reassembles a string from the pieces `MatchArnHead` peels off it. */
  lemma PeelSound(head: string, prefix: string, middle: string, suffix: string, partition: string, resource: string)
    requires EndsWith(head, suffix)
    requires StartsWith(head[..|head| - |suffix|], prefix)
    requires var tail := head[..|head| - |suffix|][|prefix|..];
             && |partition| <= |tail| && partition == tail[..|partition|]
             && StartsWith(tail[|partition|..], middle)
             && resource == tail[|partition|..][|middle|..]
    ensures head == prefix + partition + middle + resource + suffix
  {
    var front := head[..|head| - |suffix|];
    assert head == front + suffix;
    var tail := front[|prefix|..];
    assert front == prefix + tail;
    var rest := tail[|partition|..];
    assert tail == partition + rest;
    assert rest == middle + resource;
  }

  lemma ArnHeadComplete(partition: string, resource: string)
    requires AllWordChars(partition)
    ensures MatchArnHead(ArnPrefix + partition + ServiceTag + resource + ListenerTag) == Some((partition, resource))
  {
    var front := ArnPrefix + partition + ServiceTag + resource;
    var head := front + ListenerTag;
    assert head[..|head| - |ListenerTag|] == front;
    var tail := partition + ServiceTag + resource;
    assert front == ArnPrefix + tail;
    assert front[|ArnPrefix|..] == tail;
    WordPrefixOf(partition, ServiceTag + resource);
    assert tail == partition + (ServiceTag + resource);
    assert tail[|partition|..] == ServiceTag + resource;
  }

  /** What the matcher accepts is exactly the ARN its parts build. */
  lemma ArnMatchSound(s: string, p: ArnParts)
    requires MatchListenerArn(s) == Some(p)
    ensures WellFormedArn(p) && BuildArn(p) == s
  {
    var segs := Split(s, '/');
    var k := |segs|;
    var pre := segs[..k - 3];
    ArnHeadSound(Join(pre, '/'), p.partition, p.resource);
    assert Join(pre, '/') == ArnHead(p);
    JoinSplit(s, '/');
    LastThree(segs);
    JoinThree(pre, segs[k - 3], segs[k - 2], segs[k - 1], '/');
  }

  /** Every well-formed ARN is accepted, and the matcher recovers exactly its parts. */
  lemma ArnMatchComplete(p: ArnParts)
    requires WellFormedArn(p)
    ensures MatchListenerArn(BuildArn(p)) == Some(p)
  {
    var head := ArnHead(p);
    WordHasNoSlash(p.albName);
    WordHasNoSlash(p.albId);
    WordHasNoSlash(p.listenerId);
    SplitThree(head, p.albName, p.albId, p.listenerId, '/');
    var segs := Split(BuildArn(p), '/');
    assert segs[..|segs| - 3] == Split(head, '/');
    JoinSplit(head, '/');
    ArnHeadComplete(p.partition, p.resource);
  }

  lemma WordHasNoSlash(w: string)
    requires AllWordChars(w)
    ensures '/' !in w
  {
  }
}
