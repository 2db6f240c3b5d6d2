// Clusters, identities, pods and nodes as the reconcilers read them, and the
// rendering of a pod's registration entry (RenderEntry in
// internal/spireentry/entries.go).
module Rendering {
  import opened Sequences
  import opened Wrappers
  import opened Text
  import opened Spiffe
  import opened SpireApi

  /** A label selector: absent, rejected by LabelSelectorAsSelector, or a predicate on labels. */
  datatype LabelSelector = NoSelector | Invalid | Matching(matches: map<string, string> -> bool)

  datatype ClusterSpec = ClusterSpec(
    clusterName: string, region: string, accountID: string, enabled: bool, assumeRoleARN: string,
    labels: map<string, string>)

  /** EKSClusterRegistry */
  datatype Cluster = Cluster(name: string, spec: ClusterSpec)

  /** WorkloadIdentity; the durations are in seconds. */
  datatype Identity = Identity(
    name: string,
    applicationName: string,
    namespace: string,
    spiffeIDTemplate: string,
    parentIDTemplate: string,
    podSelector: LabelSelector,
    ttl: int32,
    jwtTTL: int32,
    dnsNameTemplates: seq<string>,
    workloadSelectorTemplates: seq<string>,
    federatesWith: seq<string>,
    admin: bool,
    downstream: bool,
    clusterSelector: LabelSelector,
    hint: string)

  datatype Pod = Pod(
    uid: string, name: string, namespace: string, labels: map<string, string>, serviceAccountName: string,
    phase: string, deleting: bool, nodeName: string)

  datatype Node = Node(uid: string, providerID: string)

  const RUNNING := "Running"

  /** The pod runs, is not terminating, and is bound to a node. */
  predicate Live(pod: Pod) {
    pod.phase == RUNNING && !pod.deleting && pod.nodeName != ""
  }

  datatype TemplateData = TemplateData(
    trustDomain: string, clusterName: string, applicationName: string, accountID: string, region: string,
    instanceID: string, pod: Pod, node: Node)

  /** The trust domain, and parsing and execution of Go templates. */
  datatype Env = Env(trustDomain: string, execute: (string, TemplateData) -> Option<string>)

  const DEFAULT_PARENT_ID_TEMPLATE :=
    "spiffe://{{ .TrustDomain }}/spire/agent/k8s_psat/{{ .ClusterName }}/{{ .NodeMeta.UID }}"

  function ExtractInstanceID(providerID: string): string {
    var parts := Split(providerID, '/');
    parts[|parts| - 1]
  }

  function DataFor(env: Env, identity: Identity, cluster: Cluster, pod: Pod, node: Node): TemplateData {
    TemplateData(env.trustDomain, cluster.name, identity.applicationName, cluster.spec.accountID,
                 cluster.spec.region, ExtractInstanceID(node.providerID), pod, node)
  }

  function RenderID(env: Env, template: string, data: TemplateData): Option<SpiffeID> {
    match env.execute(template, data)
    case Some(s) => FromString(s)
    case None => None
  }

  function ParentTemplate(identity: Identity): string {
    if identity.parentIDTemplate != "" then identity.parentIDTemplate else DEFAULT_PARENT_ID_TEMPLATE
  }

  /** One selector when the rendered text has a colon, none otherwise. */
  function SelectorFrom(text: string): seq<Selector> {
    var i := Index(text, ':');
    if i < |text| then [Selector(text[..i], text[i + 1..])] else []
  }

  function RenderSelector(env: Env, data: TemplateData): string -> Option<seq<Selector>> {
    template =>
      match env.execute(template, data)
      case Some(s) => Some(SelectorFrom(s))
      case None => None
  }

  function RenderName(env: Env, data: TemplateData): string -> Option<seq<string>> {
    template =>
      match env.execute(template, data)
      case Some(s) => Some([s])
      case None => None
  }

  const HINT_PREFIX := "workloadidentity:"
  const OWNER_PREFIX := "owner:WorkloadIdentity/"

  function DefaultHint(identity: string, cluster: string): string {
    HINT_PREFIX + identity + ":" + cluster + ";" + OWNER_PREFIX + identity
  }

  function HintFor(identity: Identity, cluster: Cluster): string {
    if identity.hint == "" then DefaultHint(identity.name, cluster.name)
    else identity.hint + ";" + OWNER_PREFIX + identity.name
  }

  const POD_UID_PREFIX := "pod-uid:"

  function PodSelector(pod: Pod): Selector {
    Selector("k8s", POD_UID_PREFIX + pod.uid)
  }

  /** The entry of a pod, or None when a template or an ID is rejected. */
  function Rendered(env: Env, identity: Identity, cluster: Cluster, pod: Pod, node: Node): (r: Option<Entry>)
    ensures r.Some? ==> PodSelector(pod) in r.value.selectors && r.value.hint == HintFor(identity, cluster)
  {
    var data := DataFor(env, identity, cluster, pod, node);
    match (RenderID(env, identity.spiffeIDTemplate, data), RenderID(env, ParentTemplate(identity), data))
    case (Some(spiffeID), Some(parentID)) =>
      (match (Collect(identity.workloadSelectorTemplates, RenderSelector(env, data)),
              Collect(identity.dnsNameTemplates, RenderName(env, data)),
              Collect(identity.federatesWith, ParseName))
       case (Some(selectors), Some(dnsNames), Some(federatesWith)) =>
         Some(Entry("", spiffeID, parentID, [PodSelector(pod)] + selectors, identity.ttl, identity.jwtTTL,
                    federatesWith, identity.admin, identity.downstream, dnsNames, HintFor(identity, cluster)))
       case _ => None)
    case _ => None
  }

  // ----- what an entry holds, field by field

  /** The values for the templates of a pod. */
  ghost predicate IsDataFor(
    data: TemplateData, env: Env, identity: Identity, cluster: Cluster, pod: Pod, node: Node)
  {
    && data.trustDomain == env.trustDomain
    && data.clusterName == cluster.name
    && data.applicationName == identity.applicationName
    && data.accountID == cluster.spec.accountID
    && data.region == cluster.spec.region
    && data.pod == pod
    && data.node == node
    && IsLastPart(data.instanceID, node.providerID)
  }

  /** What follows the last slash. */
  ghost predicate IsLastPart(part: string, s: string) {
    '/' !in part && (s == part || exists front :: s == front + "/" + part)
  }

  ghost predicate Prints(selector: Selector, text: string) {
    ':' !in selector.typ && selector.typ + ":" + selector.value == text
  }

  /** One selector for each template that renders to a text with a colon, in order. */
  ghost predicate AreSelectors(selectors: seq<Selector>, env: Env, data: TemplateData, templates: seq<string>) {
    if templates == [] then selectors == []
    else
      match env.execute(templates[|templates| - 1], data)
      case None => false
      case Some(text) =>
        if ':' !in text then AreSelectors(selectors, env, data, templates[..|templates| - 1])
        else
          && selectors != []
          && Prints(selectors[|selectors| - 1], text)
          && AreSelectors(selectors[..|selectors| - 1], env, data, templates[..|templates| - 1])
  }

  ghost predicate AreTexts(texts: seq<string>, env: Env, data: TemplateData, templates: seq<string>) {
    && |texts| == |templates|
    && forall i | 0 <= i < |templates| :: env.execute(templates[i], data) == Some(texts[i])
  }

  ghost predicate IsHint(hint: string, identity: Identity, cluster: Cluster) {
    if identity.hint == "" then
      hint == "workloadidentity:" + identity.name + ":" + cluster.name + ";owner:WorkloadIdentity/" + identity.name
    else
      hint == identity.hint + ";owner:WorkloadIdentity/" + identity.name
  }

  /** Each field of the entry in terms of the identity, its templates and the pod. */
  ghost predicate IsEntryFor(e: Entry, env: Env, data: TemplateData, identity: Identity, cluster: Cluster, pod: Pod) {
    var parent := if identity.parentIDTemplate == "" then DEFAULT_PARENT_ID_TEMPLATE else identity.parentIDTemplate;
    && e.id == ""
    && env.execute(identity.spiffeIDTemplate, data) == Some(e.spiffeID.String())
    && env.execute(parent, data) == Some(e.parentID.String())
    && e.selectors != [] && e.selectors[0] == Selector("k8s", "pod-uid:" + pod.uid)
    && AreSelectors(e.selectors[1..], env, data, identity.workloadSelectorTemplates)
    && e.x509SVIDTTL == identity.ttl
    && e.jwtSVIDTTL == identity.jwtTTL
    && AllDenoted(identity.federatesWith, e.federatesWith)
    && e.admin == identity.admin
    && e.downstream == identity.downstream
    && AreTexts(e.dnsNames, env, data, identity.dnsNameTemplates)
    && IsHint(e.hint, identity, cluster)
  }

  /** The template fails or renders to something else than an ID. */
  ghost predicate RendersNoID(env: Env, data: TemplateData, template: string) {
    env.execute(template, data).None? || NoID(env.execute(template, data).value)
  }

  ghost predicate SomeFails(env: Env, data: TemplateData, templates: seq<string>) {
    exists t | t in templates :: env.execute(t, data).None?
  }

  /** One of the identity's templates or trust domains is rejected. */
  ghost predicate IsRejected(env: Env, data: TemplateData, identity: Identity) {
    var parent := if identity.parentIDTemplate == "" then DEFAULT_PARENT_ID_TEMPLATE else identity.parentIDTemplate;
    || RendersNoID(env, data, identity.spiffeIDTemplate)
    || RendersNoID(env, data, parent)
    || SomeFails(env, data, identity.workloadSelectorTemplates)
    || SomeFails(env, data, identity.dnsNameTemplates)
    || exists name | name in identity.federatesWith :: NoTrustDomain(name)
  }

  /** The entry of the pod, or none exactly when something is rejected. */
  ghost predicate IsRendering(
    r: Option<Entry>, env: Env, data: TemplateData, identity: Identity, cluster: Cluster, pod: Pod)
  {
    && (r.Some? ==> IsEntryFor(r.value, env, data, identity, cluster, pod))
    && (r.None? <==> IsRejected(env, data, identity))
  }

  lemma LastPartIsLast(s: string)
    ensures IsLastPart(ExtractInstanceID(s), s)
  {
    hide Split;
    LastPart(s, '/');
    SplitParts(s, '/');
    var i := |s| - |ExtractInstanceID(s)|;
    if i > 0 {
      CutAt(s, i - 1);
      assert s == s[..i - 1] + "/" + ExtractInstanceID(s);
    }
  }

  lemma RenderIDMeans(env: Env, template: string, data: TemplateData)
    ensures match RenderID(env, template, data)
            case Some(id) => env.execute(template, data) == Some(id.String())
            case None => RendersNoID(env, data, template)
    ensures RenderID(env, template, data).Some? ==> !RendersNoID(env, data, template)
  {
    hide FromString, NoID;
    if env.execute(template, data).Some? {
      FromStringFails(env.execute(template, data).value);
    }
  }

  lemma {:induction false} RenderedSelectors(env: Env, data: TemplateData, templates: seq<string>)
    ensures match Collect(templates, RenderSelector(env, data))
            case Some(selectors) =>
              AreSelectors(selectors, env, data, templates) && !SomeFails(env, data, templates)
            case None => SomeFails(env, data, templates)
  {
    if templates != [] {
      var init, last := templates[..|templates| - 1], templates[|templates| - 1];
      RenderedSelectors(env, data, init);
      assert templates == init + [last];
      match env.execute(last, data)
      case None =>
      case Some(text) =>
        SelectorFromPrints(text);
        assert RenderSelector(env, data)(last) == Some(SelectorFrom(text));
        if Collect(init, RenderSelector(env, data)).Some? {
          var before := Collect(init, RenderSelector(env, data)).value;
          assert ':' in text ==> (before + SelectorFrom(text))[..|before|] == before;
          assert before + [] == before;
        }
    }
  }

  lemma SelectorFromPrints(text: string)
    ensures if ':' in text then |SelectorFrom(text)| == 1 && Prints(SelectorFrom(text)[0], text)
            else SelectorFrom(text) == []
  {
    var i := Index(text, ':');
    assert i == |text| ==> text[..i] == text;
    assert i < |text| ==> text == text[..i] + ":" + text[i + 1..];
  }

  lemma {:induction false} RenderedTexts(env: Env, data: TemplateData, templates: seq<string>)
    ensures match Collect(templates, RenderName(env, data))
            case Some(texts) => AreTexts(texts, env, data, templates) && !SomeFails(env, data, templates)
            case None => SomeFails(env, data, templates)
  {
    if templates != [] {
      var init, last := templates[..|templates| - 1], templates[|templates| - 1];
      RenderedTexts(env, data, init);
      assert templates == init + [last];
    }
  }

  /** Which field of the identity, the cluster and the pod goes into which field of the entry. */
  lemma RenderedMeans(env: Env, identity: Identity, cluster: Cluster, pod: Pod, node: Node)
    ensures exists data | IsDataFor(data, env, identity, cluster, pod, node) ::
              IsRendering(Rendered(env, identity, cluster, pod, node), env, data, identity, cluster, pod)
  {
    var data := DataFor(env, identity, cluster, pod, node);
    LastPartIsLast(node.providerID);
    hide IsRendering, Rendered, ExtractInstanceID, IsLastPart;
    RenderedFromData(env, identity, cluster, pod, node, data);
    assert IsDataFor(data, env, identity, cluster, pod, node);
  }

  lemma RenderedFromData(
    env: Env, identity: Identity, cluster: Cluster, pod: Pod, node: Node, data: TemplateData)
    requires data == DataFor(env, identity, cluster, pod, node)
    ensures IsRendering(Rendered(env, identity, cluster, pod, node), env, data, identity, cluster, pod)
  {
    assert data.pod == pod;
    RenderIDMeans(env, identity.spiffeIDTemplate, data);
    RenderIDMeans(env, ParentTemplate(identity), data);
    RenderedSelectors(env, data, identity.workloadSelectorTemplates);
    RenderedTexts(env, data, identity.dnsNameTemplates);
    ParsedNames(identity.federatesWith);
    HintForMeans(identity, cluster);
    hide AreSelectors, SomeFails, AreTexts, AllDenoted, NoTrustDomain, RendersNoID, RenderID, Collect, IsHint, HintFor;
    hide SpiffeIDParts.String, DataFor, FromString, TrustDomainFromString, Denotes;
  }

  lemma HintForMeans(identity: Identity, cluster: Cluster)
    ensures IsHint(HintFor(identity, cluster), identity, cluster)
  {
    assert ";owner:WorkloadIdentity/" == ";" + OWNER_PREFIX;
  }

  /** The selectors: the pod's UID, then one for each template that renders to type:value. */
  method RenderSelectors(env: Env, data: TemplateData, templates: seq<string>) returns (r: Option<seq<Selector>>)
    ensures r.Some? ==>
              && r.value != [] && r.value[0] == Selector("k8s", "pod-uid:" + data.pod.uid)
              && AreSelectors(r.value[1..], env, data, templates)
    ensures r.None? <==> SomeFails(env, data, templates)
    ensures r == match Collect(templates, RenderSelector(env, data))
                 case Some(more) => Some([PodSelector(data.pod)] + more)
                 case None => None
  {
    RenderedSelectors(env, data, templates);
    hide AreSelectors, SomeFails;
    var selectors := [Selector("k8s", POD_UID_PREFIX + data.pod.uid)];
    ghost var more: seq<Selector> := [];
    for i := 0 to |templates|
      invariant Collect(templates[..i], RenderSelector(env, data)) == Some(more)
      invariant selectors == [PodSelector(data.pod)] + more
    {
      var buf := env.execute(templates[i], data);
      CollectNext(templates, RenderSelector(env, data), i);
      if buf.None? {
        CollectFails(templates, RenderSelector(env, data), i + 1);
        return None;
      }
      var colon := Index(buf.value, ':');
      if colon < |buf.value| {
        selectors := selectors + [Selector(buf.value[..colon], buf.value[colon + 1..])];
      }
      more := more + SelectorFrom(buf.value);
    }
    assert templates[..|templates|] == templates;
    r := Some(selectors);
  }

  method RenderDNSNames(env: Env, data: TemplateData, templates: seq<string>) returns (r: Option<seq<string>>)
    ensures r.Some? ==> AreTexts(r.value, env, data, templates)
    ensures r.None? <==> SomeFails(env, data, templates)
    ensures r == Collect(templates, RenderName(env, data))
  {
    RenderedTexts(env, data, templates);
    hide AreTexts, SomeFails;
    var dnsNames: seq<string> := [];
    for i := 0 to |templates|
      invariant Collect(templates[..i], RenderName(env, data)) == Some(dnsNames)
    {
      var buf := env.execute(templates[i], data);
      CollectNext(templates, RenderName(env, data), i);
      if buf.None? {
        CollectFails(templates, RenderName(env, data), i + 1);
        return None;
      }
      dnsNames := dnsNames + [buf.value];
    }
    assert templates[..|templates|] == templates;
    r := Some(dnsNames);
  }

  method ParseFederatesWith(names: seq<string>) returns (r: Option<seq<TrustDomain>>)
    ensures r.Some? ==> AllDenoted(names, r.value)
    ensures r.None? <==> exists name | name in names :: NoTrustDomain(name)
    ensures r == Collect(names, ParseName)
  {
    ParsedNames(names);
    hide AllDenoted, NoTrustDomain;
    var federatesWith: seq<TrustDomain> := [];
    for i := 0 to |names|
      invariant Collect(names[..i], ParseName) == Some(federatesWith)
    {
      var trustDomain := TrustDomainFromString(names[i]);
      CollectNext(names, ParseName, i);
      if trustDomain.None? {
        CollectFails(names, ParseName, i + 1);
        return None;
      }
      federatesWith := federatesWith + [trustDomain.value];
    }
    assert names[..|names|] == names;
    r := Some(federatesWith);
  }

  method RenderEntry(env: Env, identity: Identity, cluster: Cluster, pod: Pod, node: Node) returns (r: Option<Entry>)
    ensures exists data | IsDataFor(data, env, identity, cluster, pod, node) ::
              IsRendering(r, env, data, identity, cluster, pod)
    ensures r == Rendered(env, identity, cluster, pod, node)
  {
    RenderedMeans(env, identity, cluster, pod, node);
    hide IsRendering, IsDataFor, AreSelectors, SomeFails, AreTexts, AllDenoted, NoTrustDomain, IsHint;
    var parentTmpl := DEFAULT_PARENT_ID_TEMPLATE;
    if identity.parentIDTemplate != "" {
      parentTmpl := identity.parentIDTemplate;
    }
    var data := DataFor(env, identity, cluster, pod, node);

    var spiffeIDBuf := env.execute(identity.spiffeIDTemplate, data);
    if spiffeIDBuf.None? {
      return None;
    }
    var spiffeID := FromString(spiffeIDBuf.value);
    if spiffeID.None? {
      return None;
    }
    var parentIDBuf := env.execute(parentTmpl, data);
    if parentIDBuf.None? {
      return None;
    }
    var parentID := FromString(parentIDBuf.value);
    if parentID.None? {
      return None;
    }
    var selectors := RenderSelectors(env, data, identity.workloadSelectorTemplates);
    if selectors.None? {
      return None;
    }
    var dnsNames := RenderDNSNames(env, data, identity.dnsNameTemplates);
    if dnsNames.None? {
      return None;
    }
    var federatesWith := ParseFederatesWith(identity.federatesWith);
    if federatesWith.None? {
      return None;
    }
    var hint := RenderHint(identity, cluster);
    r := Some(Entry("", spiffeID.value, parentID.value, selectors.value, identity.ttl, identity.jwtTTL,
                    federatesWith.value, identity.admin, identity.downstream, dnsNames.value, hint));
  }

  method RenderHint(identity: Identity, cluster: Cluster) returns (hint: string)
    ensures IsHint(hint, identity, cluster)
    ensures hint == HintFor(identity, cluster)
  {
    HintForMeans(identity, cluster);
    hint := identity.hint;
    var ownerInfo := "owner:WorkloadIdentity/" + identity.name;
    if hint == "" {
      hint := "workloadidentity:" + identity.name + ":" + cluster.name + ";" + ownerInfo;
    } else {
      hint := hint + ";" + ownerInfo;
    }
    assert hint == HintFor(identity, cluster);
  }
}
