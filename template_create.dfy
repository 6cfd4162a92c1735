/**
 * `onSubmit` of the template wizard (Template/cluster/actions/Create): the
 * cluster config assembled from the form values, and the request it leads
 * to — `create(params, config)` for a new template, or, when the route names
 * an existing template, `patch({ id }, originData)` after the template's
 * original record has had its annotations and config overwritten in place.
 *
 * `arrayInputValue` and `computeAutoDetection` live outside this file; they
 * are parameters of the model.
 */
module TemplateCreate {
  import opened Wrappers
  import opened Js
  import opened TemplateData
  import opened TemplateComponents

  /** `getRegistry(registry)`: the registry list of an array-input field, flattened one level. */
  function GetRegistry(registry: JsValue, arrayInput: JsValue -> JsValue): (r: JsValue)
    ensures r.Arr?
    ensures arrayInput(registry).Arr? ==> r.items == FlattenItems(arrayInput(registry).items)
    ensures arrayInput(registry).Str? ==> |r.items| == |arrayInput(registry).s|
    ensures arrayInput(registry).Str? ==> forall i :: 0 <= i < |r.items| ==> r.items[i] == Str([arrayInput(registry).s[i]])
    ensures !arrayInput(registry).Arr? && !arrayInput(registry).Str? ==> r.items == []
  {
    Flatten(arrayInput(registry))
  }

  /** A registry list that holds no nested lists comes out as it went in. */
  lemma RegistryOfFlatList(registry: JsValue, arrayInput: JsValue -> JsValue)
    requires arrayInput(registry).Arr?
    requires forall i :: 0 <= i < |arrayInput(registry).items| ==> !arrayInput(registry).items[i].Arr?
    ensures GetRegistry(registry, arrayInput) == arrayInput(registry)
  {
    FlattenItemsOfFlat(arrayInput(registry).items);
  }

  // ---------------------------------------------------------------------------
  // Subnets

  /** `IPVersion === 'dualStack'`. */
  predicate DualStack(v: FormValues) {
    StrictEquals(Field(v, "IPVersion"), Str("dualStack"))
  }

  /** A subnet field: `${v4},${v6}` on a dual-stack cluster, the IPv4 value itself otherwise. */
  function Subnet(dual: bool, v4: JsValue, v6: JsValue): JsValue {
    if dual then Str(ToString(v4) + "," + ToString(v6)) else v4
  }

  /** The text before the first comma. */
  function BeforeComma(s: string): string {
    if s == [] || s[0] == ',' then [] else [s[0]] + BeforeComma(s[1..])
  }

  /** The text after the first comma (empty when there is none). */
  function AfterComma(s: string): string {
    if s == [] then [] else if s[0] == ',' then s[1..] else AfterComma(s[1..])
  }

  /** Splitting `a,b` at its first comma gives back `a` and `b` when `a` holds no comma. */
  lemma {:induction false} CommaSplit(a: string, b: string)
    requires ',' !in a
    ensures BeforeComma(a + "," + b) == a
    ensures AfterComma(a + "," + b) == b
  {
    var s := a + "," + b;
    if a == [] {
      assert s == [','] + b;
    } else {
      assert s[0] == a[0];
      assert s[1..] == a[1..] + "," + b;
      CommaSplit(a[1..], b);
    }
  }

  /**
   * A dual-stack subnet carries both families, recoverable at its first comma
   * when the IPv4 part holds none; a single-stack subnet is the IPv4 value.
   */
  lemma SubnetParts(dual: bool, v4: JsValue, v6: JsValue)
    ensures dual ==> Subnet(dual, v4, v6).Str?
    ensures dual && ',' !in ToString(v4) ==>
      BeforeComma(Subnet(dual, v4, v6).s) == ToString(v4) && AfterComma(Subnet(dual, v4, v6).s) == ToString(v6)
    ensures !dual ==> Subnet(dual, v4, v6) == v4
  {
    if dual && ',' !in ToString(v4) {
      CommaSplit(ToString(v4), ToString(v6));
    }
  }

  /** The pod subnet of a dual-stack cluster with the usual CIDRs. */
  lemma DualStackPodSubnet()
    ensures Subnet(true, Str("10.0.0.0/16"), Str("fd00::/48")) == Str("10.0.0.0/16,fd00::/48")
  {
  }

  // ---------------------------------------------------------------------------
  // The cluster config

  /** The `containerRuntime` settings of one runtime. */
  datatype Runtime =
    | Docker(version: JsValue, insecureRegistry: JsValue, rootDir: JsValue)
    | Containerd(version: JsValue, insecureRegistry: JsValue, rootDir: JsValue)

  datatype Networking = Networking(serviceSubnet: JsValue, dnsDomain: JsValue, podSubnet: JsValue)

  datatype Calico = Calico(ipv4AutoDetection: JsValue, ipv6AutoDetection: JsValue, mode: JsValue,
                           dualStack: bool, ipManger: JsValue)

  datatype Cni = Cni(kind: JsValue, podIPv4CIDR: JsValue, podIPv6CIDR: JsValue, mtu: JsValue, calico: Calico)

  datatype KubeComponents = KubeComponents(ipvs: JsValue, etcdDataDir: JsValue, cni: Cni)

  /** The cluster `config` object `onSubmit` builds, field by field. */
  datatype ClusterConfig = ClusterConfig(
    offline: JsValue,
    certSANs: JsValue,
    localRegistry: JsValue,
    workerNodeVip: JsValue,
    kubernetesVersion: JsValue,
    runtimeType: JsValue,
    runtime: Runtime,
    networking: Networking,
    kubeComponents: KubeComponents,
    components: seq<Component>)

  /** `offline ? x : y`. */
  function ByMode(v: FormValues, offlineField: string, onlineField: string): JsValue {
    if Truthy(Field(v, "offline")) then Field(v, offlineField) else Field(v, onlineField)
  }

  /** Docker settings when the runtime type is the string "docker", containerd settings otherwise. */
  function RuntimeOf(v: FormValues, arrayInput: JsValue -> JsValue): Runtime {
    if StrictEquals(Field(v, "containerRuntimeType"), Str("docker")) then
      Docker(Field(v, "dockerVersion"), GetRegistry(Field(v, "dockerInsecureRegistry"), arrayInput), Field(v, "dockerRootDir"))
    else
      Containerd(ByMode(v, "containerdVersionOffline", "containerdVersionOnline"),
                 GetRegistry(Field(v, "containerdInsecureRegistry"), arrayInput), Field(v, "containerdRootDir"))
  }

  /**
   * The config of `onSubmit`, given the components `getComponents` returned;
   * `detect` stands for `computeAutoDetection`, giving the IPv4 and IPv6
   * auto-detection methods.
   */
  function BuildConfig(v: FormValues, components: seq<Component>, arrayInput: JsValue -> JsValue,
                       detect: FormValues -> (JsValue, JsValue)): ClusterConfig
  {
    var dual := DualStack(v);
    var detected := detect(v);
    ClusterConfig(
      Field(v, "offline"),
      arrayInput(Field(v, "certSANs")),
      Field(v, "localRegistry"),
      Field(v, "workerNodeVip"),
      ByMode(v, "kubernetesVersionOffline", "kubernetesVersionOnline"),
      Field(v, "containerRuntimeType"),
      RuntimeOf(v, arrayInput),
      Networking(Subnet(dual, Field(v, "serviceSubnet"), Field(v, "serviceSubnetV6")),
                 Field(v, "dnsDomain"),
                 Subnet(dual, Field(v, "podIPv4CIDR"), Field(v, "podIPv6CIDR"))),
      KubeComponents(Field(v, "ipvs"), Field(v, "etcdDataDir"),
        Cni(Field(v, "cniType"), Field(v, "podIPv4CIDR"), Field(v, "podIPv6CIDR"), Field(v, "mtu"),
          Calico(detected.0, detected.1, Field(v, "calicoMode"), dual, Field(v, "IPManger")))),
      components)
  }

  /**
   * The subnets follow the IP version: on dual stack both families joined
   * by a comma, recoverable at that comma, otherwise the IPv4 value alone;
   * Calico is told which.
   */
  lemma ConfigSubnets(v: FormValues, components: seq<Component>, arrayInput: JsValue -> JsValue,
                      detect: FormValues -> (JsValue, JsValue))
    ensures var c := BuildConfig(v, components, arrayInput, detect);
      && c.kubeComponents.cni.calico.dualStack == DualStack(v)
      && (DualStack(v) ==>
        && c.networking.podSubnet == Str(ToString(Field(v, "podIPv4CIDR")) + "," + ToString(Field(v, "podIPv6CIDR")))
        && c.networking.serviceSubnet == Str(ToString(Field(v, "serviceSubnet")) + "," + ToString(Field(v, "serviceSubnetV6"))))
      && (DualStack(v) && ',' !in ToString(Field(v, "podIPv4CIDR")) ==>
        && BeforeComma(c.networking.podSubnet.s) == ToString(Field(v, "podIPv4CIDR"))
        && AfterComma(c.networking.podSubnet.s) == ToString(Field(v, "podIPv6CIDR")))
      && (!DualStack(v) ==>
        c.networking.podSubnet == Field(v, "podIPv4CIDR") && c.networking.serviceSubnet == Field(v, "serviceSubnet"))
  {
    SubnetParts(DualStack(v), Field(v, "podIPv4CIDR"), Field(v, "podIPv6CIDR"));
  }

  /**
   * The offline switch picks the offline Kubernetes and containerd versions,
   * the online ones otherwise; docker has one version for both.
   */
  lemma ConfigVersions(v: FormValues, components: seq<Component>, arrayInput: JsValue -> JsValue,
                       detect: FormValues -> (JsValue, JsValue))
    ensures var c := BuildConfig(v, components, arrayInput, detect);
      && c.kubernetesVersion == Field(v, if Truthy(Field(v, "offline")) then "kubernetesVersionOffline" else "kubernetesVersionOnline")
      && (c.runtime.Containerd? ==>
        c.runtime.version == Field(v, if Truthy(Field(v, "offline")) then "containerdVersionOffline" else "containerdVersionOnline"))
      && (c.runtime.Docker? ==> c.runtime.version == Field(v, "dockerVersion"))
  {
  }

  /**
   * Docker settings are sent exactly when the runtime type is the string
   * "docker"; either runtime's insecure registries are the flattened list of
   * its own registry field.
   */
  lemma ConfigRuntime(v: FormValues, components: seq<Component>, arrayInput: JsValue -> JsValue,
                      detect: FormValues -> (JsValue, JsValue))
    ensures var c := BuildConfig(v, components, arrayInput, detect);
      && (c.runtime.Docker? <==> StrictEquals(Field(v, "containerRuntimeType"), Str("docker")))
      && c.runtimeType == Field(v, "containerRuntimeType")
      && c.runtime.insecureRegistry ==
        GetRegistry(Field(v, if c.runtime.Docker? then "dockerInsecureRegistry" else "containerdInsecureRegistry"), arrayInput)
      && c.runtime.rootDir == Field(v, if c.runtime.Docker? then "dockerRootDir" else "containerdRootDir")
  {
  }

  // ---------------------------------------------------------------------------
  // The config as the store receives it

  /** A component as it appears in `config.components`. */
  function ComponentToJs(c: Component): (r: JsValue)
    ensures Path(r, ["name"]) == Str(c.name)
    ensures Path(r, ["version"]) == c.version
    ensures Path(r, ["config"]) == Obj(c.config)
  {
    Obj(map["name" := Str(c.name), "config" := Obj(c.config), "version" := c.version])
  }

  function RuntimeJs(t: JsValue, r: Runtime): JsValue {
    var settings := Obj(map["version" := r.version, "insecureRegistry" := r.insecureRegistry, "rootDir" := r.rootDir]);
    match r
    case Docker(_, _, _) => Obj(map["containerRuntimeType" := t, "docker" := settings])
    case Containerd(_, _, _) => Obj(map["containerRuntimeType" := t, "containerd" := settings])
  }

  function KubeComponentsJs(k: KubeComponents): JsValue {
    var calico := k.cni.calico;
    Obj(map[
      "kubeProxy" := Obj(map["ipvs" := k.ipvs]),
      "etcd" := Obj(map["dataDir" := k.etcdDataDir]),
      "cni" := Obj(map[
        "type" := k.cni.kind,
        "podIPv4CIDR" := k.cni.podIPv4CIDR,
        "podIPv6CIDR" := k.cni.podIPv6CIDR,
        "mtu" := k.cni.mtu,
        "calico" := Obj(map[
          "IPv4AutoDetection" := calico.ipv4AutoDetection,
          "IPv6AutoDetection" := calico.ipv6AutoDetection,
          "mode" := calico.mode,
          "dualStack" := Bool(calico.dualStack),
          "IPManger" := calico.ipManger])])])
  }

  /** The config as the JSON object of the request. */
  function ConfigJs(c: ClusterConfig): JsValue {
    Obj(map[
      "offline" := c.offline,
      "certSANs" := c.certSANs,
      "localRegistry" := c.localRegistry,
      "workerNodeVip" := c.workerNodeVip,
      "kubernetesVersion" := c.kubernetesVersion,
      "kubeComponents" := KubeComponentsJs(c.kubeComponents),
      "networking" := Obj(map[
        "dnsDomain" := c.networking.dnsDomain,
        "serviceSubnet" := c.networking.serviceSubnet,
        "podSubnet" := c.networking.podSubnet]),
      "components" := Arr(seq(|c.components|, i requires 0 <= i < |c.components| => ComponentToJs(c.components[i]))),
      "containerRuntime" := RuntimeJs(c.runtimeType, c.runtime)])
  }

  /** The JSON runtime section holds exactly the type and the one runtime's settings. */
  lemma ConfigJsRuntime(c: ClusterConfig)
    ensures var rt := Path(ConfigJs(c), ["containerRuntime"]);
      && rt.Obj?
      && rt.props.Keys == {"containerRuntimeType", if c.runtime.Docker? then "docker" else "containerd"}
      && Path(rt, ["containerRuntimeType"]) == c.runtimeType
      && Path(rt, [if c.runtime.Docker? then "docker" else "containerd", "insecureRegistry"]) == c.runtime.insecureRegistry
  {
    var rt := RuntimeJs(c.runtimeType, c.runtime);
    assert Path(ConfigJs(c), ["containerRuntime"]) == rt;
    var key := if c.runtime.Docker? then "docker" else "containerd";
    var r := c.runtime;
    var settings := Obj(map["version" := r.version, "insecureRegistry" := r.insecureRegistry, "rootDir" := r.rootDir]);
    assert rt.props == map["containerRuntimeType" := c.runtimeType, key := settings];
    assert Path(rt, [key, "insecureRegistry"]) == Path(settings, ["insecureRegistry"]);
  }

  /** The JSON subnets and component list are the config's own. */
  lemma ConfigJsNetworking(c: ClusterConfig)
    ensures Path(ConfigJs(c), ["networking", "podSubnet"]) == c.networking.podSubnet
    ensures Path(ConfigJs(c), ["networking", "serviceSubnet"]) == c.networking.serviceSubnet
    ensures var cs := Path(ConfigJs(c), ["components"]);
      cs.Arr? && |cs.items| == |c.components| && forall i :: 0 <= i < |c.components| ==> cs.items[i] == ComponentToJs(c.components[i])
  {
  }

  /** The JSON object has exactly the keys of the config literal, and the flat fields are passed on as they are. */
  lemma ConfigJsKeys(c: ClusterConfig)
    ensures ConfigJs(c).Obj?
    ensures ConfigJs(c).props.Keys == {"offline", "certSANs", "localRegistry", "workerNodeVip", "kubernetesVersion",
                                       "containerRuntime", "networking", "kubeComponents", "components"}
    ensures Path(ConfigJs(c), ["offline"]) == c.offline
    ensures Path(ConfigJs(c), ["certSANs"]) == c.certSANs
    ensures Path(ConfigJs(c), ["localRegistry"]) == c.localRegistry
    ensures Path(ConfigJs(c), ["workerNodeVip"]) == c.workerNodeVip
    ensures Path(ConfigJs(c), ["kubernetesVersion"]) == c.kubernetesVersion
  {
  }

  /** The nested sections: `networking` with its three keys, and the runtime and `kubeComponents` objects. */
  lemma ConfigJsSections(c: ClusterConfig)
    ensures var n := Path(ConfigJs(c), ["networking"]);
      n.Obj? && n.props.Keys == {"serviceSubnet", "dnsDomain", "podSubnet"} && Path(n, ["dnsDomain"]) == c.networking.dnsDomain
    ensures Path(ConfigJs(c), ["containerRuntime"]) == RuntimeJs(c.runtimeType, c.runtime)
    ensures Path(ConfigJs(c), ["kubeComponents"]) == KubeComponentsJs(c.kubeComponents)
  {
  }

  /** The `cni.calico` object of `kubeComponents` carries the Calico record's fields. */
  lemma KubeComponentsJsCalico(k: KubeComponents)
    ensures var calico := Path(KubeComponentsJs(k), ["cni", "calico"]);
      && calico.Obj? && calico.props.Keys == {"IPv4AutoDetection", "IPv6AutoDetection", "mode", "dualStack", "IPManger"}
      && Path(calico, ["IPv4AutoDetection"]) == k.cni.calico.ipv4AutoDetection
      && Path(calico, ["IPv6AutoDetection"]) == k.cni.calico.ipv6AutoDetection
      && Path(calico, ["mode"]) == k.cni.calico.mode
      && Path(calico, ["dualStack"]) == Bool(k.cni.calico.dualStack)
      && Path(calico, ["IPManger"]) == k.cni.calico.ipManger
  {
    var cni := Prop(KubeComponentsJs(k).props, "cni");
    assert Path(KubeComponentsJs(k), ["cni", "calico"]) == Path(cni, ["calico"]);
  }

  /** The `kubeComponents` object carries the record's `kubeProxy`, `etcd` and `cni` fields. */
  lemma KubeComponentsJsFields(k: KubeComponents)
    ensures var j := KubeComponentsJs(k);
      && j.Obj? && j.props.Keys == {"kubeProxy", "etcd", "cni"}
      && Path(j, ["kubeProxy", "ipvs"]) == k.ipvs
      && Path(j, ["etcd", "dataDir"]) == k.etcdDataDir
    ensures var cni := Path(KubeComponentsJs(k), ["cni"]);
      && cni.Obj? && cni.props.Keys == {"type", "podIPv4CIDR", "podIPv6CIDR", "mtu", "calico"}
      && Path(cni, ["type"]) == k.cni.kind
      && Path(cni, ["podIPv4CIDR"]) == k.cni.podIPv4CIDR
      && Path(cni, ["podIPv6CIDR"]) == k.cni.podIPv6CIDR
      && Path(cni, ["mtu"]) == k.cni.mtu
  {
    var j := KubeComponentsJs(k);
    assert Path(j, ["kubeProxy", "ipvs"]) == Path(Prop(j.props, "kubeProxy"), ["ipvs"]);
    assert Path(j, ["etcd", "dataDir"]) == Path(Prop(j.props, "etcd"), ["dataDir"]);
  }

  /** The sent `calico.dualStack` is the boolean `IPVersion === 'dualStack'`, whatever the other fields. */
  lemma SentDualStack(v: FormValues, components: seq<Component>, arrayInput: JsValue -> JsValue,
                      detect: FormValues -> (JsValue, JsValue))
    ensures Path(ConfigJs(BuildConfig(v, components, arrayInput, detect)), ["kubeComponents", "cni", "calico", "dualStack"])
      == Bool(DualStack(v))
  {
    var c := BuildConfig(v, components, arrayInput, detect);
    ConfigJsSections(c);
    KubeComponentsJsCalico(c.kubeComponents);
    ConfigSubnets(v, components, arrayInput, detect);
    var k := KubeComponentsJs(c.kubeComponents);
    assert Path(ConfigJs(c), ["kubeComponents", "cni", "calico", "dualStack"]) == Path(k, ["cni", "calico", "dualStack"]);
    assert Path(k, ["cni", "calico", "dualStack"]) == Path(Path(k, ["cni", "calico"]), ["dualStack"]);
  }

  // ---------------------------------------------------------------------------
  // The request

  /** The request `onSubmit` hands to the templates store. */
  datatype Request =
    | Create(params: JsValue, config: JsValue)   // templatesStore.create(params, config)
    | Patch(id: JsValue, body: JsValue)          // templatesStore.patch({ id }, baseVals)

  /** The template's name and description as the patch writes them into `metadata.annotations`. */
  function Annotations(v: FormValues): (r: JsValue)
    ensures Path(r, ["kubeclipper.io/display-name"]) == Field(v, "templateName")
    ensures Path(r, ["kubeclipper.io/description"]) == Field(v, "templateDescription")
    ensures r.Obj? && |r.props| == 2
  {
    Obj(map["kubeclipper.io/display-name" := Field(v, "templateName"),
            "kubeclipper.io/description" := Field(v, "templateDescription")])
  }

  /** The creation parameters: the name and description, for the `kubernetes` plugin `v1`. */
  function CreateParams(v: FormValues): (r: JsValue)
    ensures Path(r, ["templateName"]) == Field(v, "templateName")
    ensures Path(r, ["templateDescription"]) == Field(v, "templateDescription")
    ensures Path(r, ["pluginName"]) == Str("kubernetes")
    ensures Path(r, ["pluginVersion"]) == Str("v1")
    ensures Path(r, ["pluginCategory"]) == Str("kubernetes")
    ensures r.Obj? && |r.props| == 5
  {
    Obj(map["templateName" := Field(v, "templateName"),
            "templateDescription" := Field(v, "templateDescription"),
            "pluginName" := Str("kubernetes"),
            "pluginVersion" := Str("v1"),
            "pluginCategory" := Str("kubernetes")])
  }

  /** `set(baseVals, 'metadata.annotations', …)` and then `set(baseVals, 'config', config)`. */
  function PatchedOrigin(origin: JsValue, v: FormValues, config: JsValue): JsValue {
    SetPath(SetPath(origin, ["metadata", "annotations"], Annotations(v)), ["config"], config)
  }

  /**
   * The patched record carries the new annotations and config and keeps
   * every other top-level field; a record that is not an object (no edit
   * data was loaded) is sent unchanged.
   */
  lemma PatchedOriginFacts(origin: JsValue, v: FormValues, config: JsValue)
    ensures var b := PatchedOrigin(origin, v, config);
      && (origin.Obj? ==>
        && Path(b, ["config"]) == config
        && Path(b, ["metadata", "annotations"]) == Annotations(v)
        && b.props.Keys == origin.props.Keys + {"metadata", "config"}
        && forall k :: k in origin.props && k != "metadata" && k != "config" ==> b.props[k] == origin.props[k])
      && (!origin.Obj? ==> b == origin)
  {
    var once := SetPath(origin, ["metadata", "annotations"], Annotations(v));
    if origin.Obj? {
      assert Path(PatchedOrigin(origin, v, config), ["metadata", "annotations"]) == Path(once, ["metadata", "annotations"]);
    }
  }

  /**
   * Inside `metadata` the patch replaces only `annotations`: every other
   * metadata field of the original record (name, labels, resource version)
   * is carried through, and a missing or non-object `metadata` becomes an
   * object holding just the annotations.
   */
  lemma PatchedMetadata(origin: JsValue, v: FormValues, config: JsValue)
    ensures origin.Obj? ==>
      var m := Path(PatchedOrigin(origin, v, config), ["metadata"]);
      var before := Prop(origin.props, "metadata");
      && m.Obj?
      && m.props.Keys == (if before.Obj? then before.props.Keys else {}) + {"annotations"}
      && (before.Obj? ==> forall k :: k in before.props && k != "annotations" ==> m.props[k] == before.props[k])
  {
    if origin.Obj? {
      var child := ChildFor(origin.props, "metadata");
      var meta := SetPath(child, ["annotations"], Annotations(v));
      var once := SetPath(origin, ["metadata", "annotations"], Annotations(v));
      assert once.props["metadata"] == meta;
      assert Path(PatchedOrigin(origin, v, config), ["metadata"]) == once.props["metadata"];
    }
  }

  /** Submitting the same values again on the already-patched record sends the same body. */
  lemma ResubmitSendsSameBody(origin: JsValue, v: FormValues, config: JsValue)
    ensures PatchedOrigin(PatchedOrigin(origin, v, config), v, config) == PatchedOrigin(origin, v, config)
  {
    var p, q := ["metadata", "annotations"], ["config"];
    var a, c := Annotations(v), config;
    var once := SetPath(SetPath(origin, p, a), q, c);
    SetPathCommutes(SetPath(origin, p, a), q, c, p, a);
    SetPathTwice(origin, p, a);
    SetPathTwice(SetPath(origin, p, a), q, c);
    assert SetPath(once, p, a) == SetPath(SetPath(SetPath(origin, p, a), p, a), q, c);
  }

  /**
   * `onSubmit(values)`: the components are computed first (a fault thrown
   * there ends the submission); then a truthy route id patches the original
   * record and any other id creates a new template.
   */
  function SubmitOutcome(v: FormValues, routeId: JsValue, origin: JsValue, arrayInput: JsValue -> JsValue,
                         detect: FormValues -> (JsValue, JsValue)): Result<Request, Fault>
  {
    match ComponentsOf(v)
    case Failure(f) => Failure(f)
    case Success(cs) =>
      var config := ConfigJs(BuildConfig(v, cs, arrayInput, detect));
      if Truthy(routeId) then Success(Patch(routeId, PatchedOrigin(origin, v, config)))
      else Success(Create(CreateParams(v), config))
  }

  /**
   * A submission succeeds exactly when the components do; it patches exactly
   * when the route names a template, and either way sends the config built
   * from those components.
   */
  lemma SubmitShape(v: FormValues, routeId: JsValue, origin: JsValue, arrayInput: JsValue -> JsValue,
                    detect: FormValues -> (JsValue, JsValue))
    ensures var r := SubmitOutcome(v, routeId, origin, arrayInput, detect);
      && (r.Success? <==> ComponentsOf(v).Success?)
      && (r.Failure? ==> r.error == ComponentsOf(v).error)
      && (r.Success? ==> (r.value.Patch? <==> Truthy(routeId)))
      && (r.Success? && r.value.Create? ==>
        r.value.params == CreateParams(v) && r.value.config == ConfigJs(BuildConfig(v, ComponentsOf(v).value, arrayInput, detect)))
      && (r.Success? && r.value.Patch? ==>
        r.value.id == routeId && r.value.body == PatchedOrigin(origin, v, ConfigJs(BuildConfig(v, ComponentsOf(v).value, arrayInput, detect))))
  {
  }

  /** A component missing from the catalogue makes the submission fail before any request is made. */
  lemma SubmitNeedsCatalogue(v: FormValues, routeId: JsValue, origin: JsValue, arrayInput: JsValue -> JsValue,
                             detect: FormValues -> (JsValue, JsValue), k: nat)
    requires k < |Collected(v)| && !InCatalogue(v.catalogue, Collected(v)[k].name)
    ensures SubmitOutcome(v, routeId, origin, arrayInput, detect).Failure?
    ensures SubmitOutcome(v, routeId, origin, arrayInput, detect).error.NotInCatalogue?
  {
    ComponentsOfEffect(v);
  }

  /**
   * The wizard, as far as `onSubmit` is concerned: the route's template id
   * and the template's original record (`state.data._originData`), which a
   * patch modifies in place before sending it.
   */
  class CreateAction {
    const routeId: JsValue
    var originData: JsValue

    constructor(routeId: JsValue, originData: JsValue)
      ensures this.routeId == routeId && this.originData == originData
    {
      this.routeId := routeId;
      this.originData := originData;
    }

    /** `onSubmit(values)`. */
    method OnSubmit(v: FormValues, arrayInput: JsValue -> JsValue, detect: FormValues -> (JsValue, JsValue))
      returns (r: Result<Request, Fault>)
      modifies this
      ensures r == SubmitOutcome(v, routeId, old(originData), arrayInput, detect)
      ensures originData == if r.Success? && r.value.Patch? then r.value.body else old(originData)
    {
      var components := GetComponents(v);
      if components.Failure? {
        return Failure(components.error);
      }
      var config := ConfigJs(BuildConfig(v, components.value, arrayInput, detect));
      var params := CreateParams(v);
      if Truthy(routeId) {
        originData := SetPath(originData, ["metadata", "annotations"], Annotations(v));
        originData := SetPath(originData, ["config"], config);
        return Success(Patch(routeId, originData));
      }
      return Success(Create(params, config));
    }
  }
}
