/** Helpers of the host manager: turning a task label key into an
    environment variable name, recognising slack resource types, and grouping
    the offers of each host into one host offer. Case mapping is ASCII only. */
module HostUtil {
  import opened Common

  /** `unicode.ToUpper` restricted to ASCII: 'a'..'z' become 'A'..'Z'. */
  function UpperChar(c: char): (r: char)
    ensures 'a' <= c <= 'z' ==> 'A' <= r <= 'Z' && r as int - 'A' as int == c as int - 'a' as int
    ensures !('a' <= c <= 'z') ==> r == c
  {
    if 'a' <= c <= 'z' then (c as int - 32) as char else c
  }

  /** `unicode.ToLower` restricted to ASCII: 'A'..'Z' become 'a'..'z'. */
  function LowerChar(c: char): (r: char)
    ensures 'A' <= c <= 'Z' ==> 'a' <= r <= 'z' && r as int - 'a' as int == c as int - 'A' as int
    ensures !('A' <= c <= 'Z') ==> r == c
  {
    if 'A' <= c <= 'Z' then (c as int + 32) as char else c
  }

  /** `strings.ToUpper` on ASCII text. */
  function Upper(s: string): (r: string)
    ensures |r| == |s|
    ensures forall i :: 0 <= i < |s| ==> r[i] == UpperChar(s[i])
  {
    seq(|s|, i requires 0 <= i < |s| => UpperChar(s[i]))
  }

  /** `strings.ToLower` on ASCII text. */
  function Lower(s: string): (r: string)
    ensures |r| == |s|
    ensures forall i :: 0 <= i < |s| ==> r[i] == LowerChar(s[i])
  {
    seq(|s|, i requires 0 <= i < |s| => LowerChar(s[i]))
  }

  /** The position `strings.Replace(s, ".", "_", 1)` rewrites: the first
      position of `c` in `s`, or -1 when there is none. */
  function IndexOf(s: string, c: char): (k: int)
    ensures k == -1 <==> c !in s
    ensures k != -1 ==> 0 <= k < |s| && s[k] == c && c !in s[..k]
  {
    if s == [] then -1
    else if s[0] == c then 0
    else
      var k := IndexOf(s[1..], c);
      if k == -1 then -1
      else
        assert s[..k + 1] == [s[0]] + s[1..][..k];
        k + 1
  }

  /** `strings.Replace(s, from, to, 1)` for one-character `from` and `to`:
      the first occurrence of `from` becomes `to`. */
  function ReplaceFirst(s: string, from: char, to: char): (r: string)
    ensures |r| == |s|
  {
    if s == [] then []
    else if s[0] == from then [to] + s[1..]
    else [s[0]] + ReplaceFirst(s[1..], from, to)
  }

  /** Replacing the first occurrence keeps everything before it and after it,
      and is the identity when `from` does not occur. */
  lemma {:induction false} ReplaceFirstMeaning(s: string, from: char, to: char)
    ensures from !in s ==> ReplaceFirst(s, from, to) == s
    ensures from in s ==>
      var k := IndexOf(s, from);
      ReplaceFirst(s, from, to) == s[..k] + [to] + s[k + 1..]
  {
    if s != [] && s[0] != from {
      ReplaceFirstMeaning(s[1..], from, to);
      if from in s {
        var k := IndexOf(s[1..], from);
        assert s[1..][..k] == s[1..k + 1];
        assert s[..k + 1] == [s[0]] + s[1..k + 1];
      }
    }
  }

  /** `LabelKeyToEnvVarName`: the first '.' of the label key becomes '_',
      then the whole key is upper-cased. */
  function LabelKeyToEnvVarName(labelKey: string): (name: string)
    ensures |name| == |labelKey|
  {
    Upper(ReplaceFirst(labelKey, '.', '_'))
  }

  /** Upper-casing works character by character. */
  lemma UpperSplice(a: string, c: char, b: string)
    ensures Upper(a + [c] + b) == Upper(a) + [UpperChar(c)] + Upper(b)
  {
  }

  /** What the environment variable name is: the upper-cased key when it has
      no '.', otherwise the upper-cased text around its first '.', joined by
      '_' (later dots stay). */
  lemma LabelKeyToEnvVarNameMeaning(labelKey: string)
    ensures '.' !in labelKey ==> LabelKeyToEnvVarName(labelKey) == Upper(labelKey)
    ensures '.' in labelKey ==>
      var k := IndexOf(labelKey, '.');
      LabelKeyToEnvVarName(labelKey) == Upper(labelKey[..k]) + "_" + Upper(labelKey[k + 1..])
  {
    ReplaceFirstMeaning(labelKey, '.', '_');
    if '.' in labelKey {
      var k := IndexOf(labelKey, '.');
      UpperSplice(labelKey[..k], '_', labelKey[k + 1..]);
    }
  }

  /** No lower-case ASCII letter is left in an environment variable name. */
  lemma EnvVarNameHasNoLowerCase(labelKey: string, i: int)
    requires 0 <= i < |labelKey|
    ensures !('a' <= LabelKeyToEnvVarName(labelKey)[i] <= 'z')
  {
  }

  /** The first `c` of `a + [c] + b` is at `|a|` when `a` holds no `c`. */
  lemma IndexOfAfter(a: string, c: char, b: string)
    requires c !in a
    ensures IndexOf(a + [c] + b, c) == |a|
  {
    var s := a + [c] + b;
    assert s[|a|] == c && s[..|a|] == a;
  }

  /** A key of the form `prefix.rest`, with no dot in the prefix, becomes
      the upper-cased prefix and rest joined by '_'. */
  lemma DottedKey(prefix: string, rest: string)
    requires '.' !in prefix
    ensures LabelKeyToEnvVarName(prefix + "." + rest) == Upper(prefix) + "_" + Upper(rest)
  {
    var key := prefix + "." + rest;
    IndexOfAfter(prefix, '.', rest);
    LabelKeyToEnvVarNameMeaning(key);
    assert key[..|prefix|] == prefix && key[|prefix| + 1..] == rest;
  }

  /** The label key of a job id becomes the job id's variable name. The two
      literals come in as parameters to keep the proof from unfolding them. */
  lemma JobIdLabel(prefix: string, rest: string)
    requires prefix == "peloton" && rest == "job_id"
    ensures LabelKeyToEnvVarName(prefix + "." + rest) == "PELOTON_JOB_ID"
  {
    DottedKey(prefix, rest);
    assert Upper(prefix) == "PELOTON";
    assert Upper(rest) == "JOB_ID";
  }

  /** `IsSlackResourceType`: whether `resourceType` is one of the slack
      resource types, ignoring case. */
  method IsSlackResourceType(resourceType: string, slackResourceTypes: seq<string>) returns (slack: bool)
    ensures slack <==> exists i :: 0 <= i < |slackResourceTypes| && Lower(slackResourceTypes[i]) == Lower(resourceType)
  {
    for i := 0 to |slackResourceTypes|
      invariant forall j :: 0 <= j < i ==> Lower(slackResourceTypes[j]) != Lower(resourceType)
    {
      if Lower(slackResourceTypes[i]) == Lower(resourceType) {
        return true;
      }
    }
    return false;
  }

  /** Lower-casing forgets case: an upper-cased name lower-cases to the same
      text as the name itself, so the slack test gives the same answer for it. */
  lemma LowerIgnoresCase(s: string)
    ensures Lower(Upper(s)) == Lower(s)
  {
    forall i | 0 <= i < |s|
      ensures Lower(Upper(s))[i] == Lower(s)[i]
    {
      var c := s[i];
      if 'a' <= c <= 'z' {
        assert LowerChar(UpperChar(c)) == c;
      } else if 'A' <= c <= 'Z' {
        assert UpperChar(c) == c;
      }
    }
  }

  /** A Mesos resource or attribute; only its identity matters here. */
  datatype Resource = Resource(name: string, value: string)

  datatype Attribute = Attribute(name: string, value: string)

  /** The parts of a Mesos offer the grouping reads. */
  datatype Offer = Offer(agentId: string, resources: seq<Resource>, attributes: seq<Attribute>)

  /** `hostsvc.HostOffer`. */
  datatype HostOffer = HostOffer(hostname: string, agentId: string, attributes: seq<Attribute>, resources: seq<Resource>)

  /** The resources of `offers`, offer after offer. */
  function AllResources(offers: seq<Offer>): seq<Resource>
  {
    if offers == [] then [] else AllResources(offers[..|offers| - 1]) + offers[|offers| - 1].resources
  }

  /** The attributes of `offers`, offer after offer. */
  function AllAttributes(offers: seq<Offer>): seq<Attribute>
  {
    if offers == [] then [] else AllAttributes(offers[..|offers| - 1]) + offers[|offers| - 1].attributes
  }

  /** Concatenating offer lists concatenates their resources. */
  lemma {:induction false} AllResourcesAppend(a: seq<Offer>, b: seq<Offer>)
    ensures AllResources(a + b) == AllResources(a) + AllResources(b)
    decreases |b|
  {
    if b == [] {
      assert a + b == a;
    } else {
      var b', last := b[..|b| - 1], b[|b| - 1];
      assert (a + b)[..|a + b| - 1] == a + b';
      assert (a + b)[|a + b| - 1] == last;
      AllResourcesAppend(a, b');
      assert AllResources(a + b) == AllResources(a + b') + last.resources;
    }
  }

  /** Concatenating offer lists concatenates their attributes. */
  lemma {:induction false} AllAttributesAppend(a: seq<Offer>, b: seq<Offer>)
    ensures AllAttributes(a + b) == AllAttributes(a) + AllAttributes(b)
    decreases |b|
  {
    if b == [] {
      assert a + b == a;
    } else {
      var b', last := b[..|b| - 1], b[|b| - 1];
      assert (a + b)[..|a + b| - 1] == a + b';
      assert (a + b)[|a + b| - 1] == last;
      AllAttributesAppend(a, b');
      assert AllAttributes(a + b) == AllAttributes(a + b') + last.attributes;
    }
  }

  /** A resource of the host offer is a resource of one of the host's offers,
      and every resource of every offer is kept. */
  lemma {:induction false} AllResourcesMembers(offers: seq<Offer>, x: Resource)
    ensures x in AllResources(offers) <==> exists k :: 0 <= k < |offers| && x in offers[k].resources
    decreases |offers|
  {
    if offers != [] {
      var init := offers[..|offers| - 1];
      AllResourcesMembers(init, x);
      if x in AllResources(offers) && x !in offers[|offers| - 1].resources {
        var k :| 0 <= k < |init| && x in init[k].resources;
        assert offers[k] == init[k];
      }
      if exists k :: 0 <= k < |offers| && x in offers[k].resources {
        var k :| 0 <= k < |offers| && x in offers[k].resources;
        if k < |init| {
          assert init[k] == offers[k];
        }
      }
    }
  }

  /** The host offer built from a host's non-empty offer list. */
  function HostOfferOf(hostname: string, offers: seq<Offer>): (h: HostOffer)
    requires |offers| > 0
    ensures h.hostname == hostname && h.agentId == offers[0].agentId
  {
    HostOffer(hostname, offers[0].agentId, AllAttributes(offers), AllResources(offers))
  }

  /** The inner loop of the grouping: the resources and the attributes of a
      host's offers, appended offer after offer. */
  method GatherOffers(offers: seq<Offer>) returns (resources: seq<Resource>, attributes: seq<Attribute>)
    ensures resources == AllResources(offers) && attributes == AllAttributes(offers)
  {
    resources, attributes := [], [];
    for k := 0 to |offers|
      invariant resources == AllResources(offers[..k])
      invariant attributes == AllAttributes(offers[..k])
    {
      assert offers[..k + 1][..k] == offers[..k];
      resources := resources + offers[k].resources;
      attributes := attributes + offers[k].attributes;
    }
    assert offers[..|offers|] == offers;
  }

  /** Every host offer built so far comes from a host already visited with a
      non-empty offer list and is built from that host's offers. */
  ghost predicate Built(out: seq<HostOffer>, hostoffers: map<string, seq<Offer>>, remaining: set<string>)
  {
    forall i :: 0 <= i < |out| ==>
      out[i].hostname in hostoffers && out[i].hostname !in remaining && |hostoffers[out[i].hostname]| > 0 &&
      out[i] == HostOfferOf(out[i].hostname, hostoffers[out[i].hostname])
  }

  /** Every visited host with a non-empty offer list has its host offer. */
  ghost predicate Covered(out: seq<HostOffer>, hostoffers: map<string, seq<Offer>>, remaining: set<string>)
  {
    forall h :: h in hostoffers && h !in remaining && |hostoffers[h]| > 0 ==>
      exists i :: 0 <= i < |out| && out[i].hostname == h
  }

  /** No host has two host offers. */
  ghost predicate OncePerHost(out: seq<HostOffer>)
  {
    forall i, j :: 0 <= i < j < |out| ==> out[i].hostname != out[j].hostname
  }

  /** Visiting a host with no offers keeps the loop's facts. */
  lemma VisitEmptyHost(out: seq<HostOffer>, hostoffers: map<string, seq<Offer>>, remaining: set<string>, h: string)
    requires Built(out, hostoffers, remaining) && Covered(out, hostoffers, remaining)
    requires h in hostoffers && |hostoffers[h]| == 0
    ensures Built(out, hostoffers, remaining - {h}) && Covered(out, hostoffers, remaining - {h})
  {
  }

  /** Visiting a host with offers and appending its host offer keeps the
      loop's facts. */
  lemma VisitHost(out: seq<HostOffer>, hostoffers: map<string, seq<Offer>>, remaining: set<string>, h: string)
    requires Built(out, hostoffers, remaining) && Covered(out, hostoffers, remaining) && OncePerHost(out)
    requires h in remaining && h in hostoffers && |hostoffers[h]| > 0
    ensures var out' := out + [HostOfferOf(h, hostoffers[h])];
      Built(out', hostoffers, remaining - {h}) && Covered(out', hostoffers, remaining - {h}) && OncePerHost(out')
  {
    var out' := out + [HostOfferOf(h, hostoffers[h])];
    assert forall i :: 0 <= i < |out| ==> out'[i] == out[i];
    assert out'[|out|] == HostOfferOf(h, hostoffers[h]);
    VisitHostCovered(out, hostoffers, remaining, h, out');
    forall i, j | 0 <= i < j < |out'| ensures out'[i].hostname != out'[j].hostname {
      if j == |out| {
        assert out[i].hostname !in remaining;
      }
    }
  }

  lemma VisitHostCovered(out: seq<HostOffer>, hostoffers: map<string, seq<Offer>>, remaining: set<string>, h: string,
                         out': seq<HostOffer>)
    requires Covered(out, hostoffers, remaining)
    requires |out'| == |out| + 1 && out'[|out|].hostname == h
    requires forall i :: 0 <= i < |out| ==> out'[i] == out[i]
    ensures Covered(out', hostoffers, remaining - {h})
  {
    forall g | g in hostoffers && g !in remaining - {h} && |hostoffers[g]| > 0
      ensures exists i :: 0 <= i < |out'| && out'[i].hostname == g
    {
      if g == h {
        assert out'[|out|].hostname == g;
      } else {
        var i :| 0 <= i < |out| && out[i].hostname == g;
        assert out'[i] == out[i];
      }
    }
  }

  /** Once every host is visited, the loop's facts are the grouping's promise. */
  lemma Visited(out: seq<HostOffer>, hostoffers: map<string, seq<Offer>>)
    requires Built(out, hostoffers, {}) && Covered(out, hostoffers, {})
    ensures forall i :: 0 <= i < |out| ==>
      out[i].hostname in hostoffers && |hostoffers[out[i].hostname]| > 0 &&
      out[i] == HostOfferOf(out[i].hostname, hostoffers[out[i].hostname])
    ensures forall h :: h in hostoffers && |hostoffers[h]| > 0 ==> exists i :: 0 <= i < |out| && out[i].hostname == h
  {
  }

  /** `MesosOffersToHostOffers`: one host offer per host with at least one
      offer, in an order the model leaves open (Go's map iteration order). */
  method MesosOffersToHostOffers(hostoffers: map<string, seq<Offer>>) returns (out: seq<HostOffer>)
    ensures |out| <= |hostoffers.Keys|
    ensures forall i :: 0 <= i < |out| ==>
      out[i].hostname in hostoffers && |hostoffers[out[i].hostname]| > 0 &&
      out[i] == HostOfferOf(out[i].hostname, hostoffers[out[i].hostname])
    ensures forall h :: h in hostoffers && |hostoffers[h]| > 0 ==> exists i :: 0 <= i < |out| && out[i].hostname == h
    ensures forall i, j :: 0 <= i < j < |out| ==> out[i].hostname != out[j].hostname
  {
    out := [];
    var remaining := hostoffers.Keys;
    while remaining != {}
      invariant remaining <= hostoffers.Keys
      invariant |out| + |remaining| <= |hostoffers.Keys|
      invariant Built(out, hostoffers, remaining) && Covered(out, hostoffers, remaining) && OncePerHost(out)
      decreases |remaining|
    {
      NonEmptyHasElement(remaining);
      var hostname :| hostname in remaining;
      var offers := hostoffers[hostname];
      if |offers| <= 0 {
        VisitEmptyHost(out, hostoffers, remaining, hostname);
        remaining := remaining - {hostname};
        continue;
      }
      var resources, attributes := GatherOffers(offers);
      VisitHost(out, hostoffers, remaining, hostname);
      assert HostOffer(hostname, offers[0].agentId, attributes, resources) == HostOfferOf(hostname, offers);
      out := out + [HostOffer(hostname, offers[0].agentId, attributes, resources)];
      ghost var before := remaining;
      remaining := remaining - {hostname};
      assert before == remaining + {hostname};
    }
    Visited(out, hostoffers);
  }
}
