/**
 * The parsed `zoo.yaml` document and `Zoomaker._check_yaml`, the fail-fast
 * check that runs before anything is installed.
 */
module Manifest {
  import opened Wrappers

  /** One resource entry: its attributes as written in the manifest. */
  type Fields = map<string, string>

  /** A named group of the `resources` mapping, with its entries in order. */
  datatype Group = Group(name: string, resources: seq<Fields>)

  /** The top-level mapping; a key left out of the document is `None`. */
  datatype Document = Document(
    name: Option<string>,
    version: Option<string>,
    resources: Option<seq<Group>>)

  /** The resource attributes the check demands, in the order it looks for them. */
  const Required: seq<string> := ["name", "src", "type", "install_to"]

  const KnownTypes: seq<string> := ["huggingface", "git", "download"]

  datatype ManifestError =
    | NameMissing
    | ResourcesMissing
    | AttributeMissing(attribute: string)
    | UnknownType(kind: string)

  /** The text of the exception `_check_yaml` raises. */
  function Message(e: ManifestError): string
  {
    match e
    case NameMissing => "❌ 'name' is missing in zoo.yaml"
    case ResourcesMissing => "❌ 'resources' is missing in zoo.yaml"
    case AttributeMissing(a) => "❌ Resource must have '" + a + "' attribute"
    case UnknownType(t) => "❌ Unknown resource type: " + t
  }

  datatype Verdict = Accepted | Rejected(error: ManifestError)

  /** The checks `_check_yaml` makes on one resource, in its order. */
  function CheckResource(r: Fields): Verdict
  {
    if "name" !in r then Rejected(AttributeMissing("name"))
    else if "src" !in r then Rejected(AttributeMissing("src"))
    else if "type" !in r then Rejected(AttributeMissing("type"))
    else if "install_to" !in r then Rejected(AttributeMissing("install_to"))
    else if r["type"] !in KnownTypes then Rejected(UnknownType(r["type"]))
    else Accepted
  }

  /** The first failing resource of a list decides. */
  function CheckResources(rs: seq<Fields>): Verdict
  {
    if rs == [] then Accepted
    else if CheckResource(rs[0]).Rejected? then CheckResource(rs[0])
    else CheckResources(rs[1..])
  }

  /** Groups are checked in order, like the nested loops of `_check_yaml`. */
  function CheckGroups(gs: seq<Group>): Verdict
  {
    if gs == [] then Accepted
    else if CheckResources(gs[0].resources).Rejected? then CheckResources(gs[0].resources)
    else CheckGroups(gs[1..])
  }

  /** `_check_yaml` */
  function CheckManifest(d: Document): (v: Verdict)
    ensures d.name.None? ==> v == Rejected(NameMissing)
    ensures d.name.Some? && d.resources.None? ==> v == Rejected(ResourcesMissing)
  {
    if d.name.None? then Rejected(NameMissing)
    else if d.resources.None? then Rejected(ResourcesMissing)
    else CheckGroups(d.resources.value)
  }

  /** All resources of all groups, in installation order. */
  function Flatten(gs: seq<Group>): seq<Fields>
  {
    if gs == [] then [] else Flatten(gs[..|gs| - 1]) + gs[|gs| - 1].resources
  }

  /** What a well-formed resource is, stated without the order of the checks. */
  predicate ValidResource(r: Fields)
  {
    (forall a :: a in Required ==> a in r) && r["type"] in KnownTypes
  }

  /** What a well-formed manifest is, stated without the order of the checks. */
  predicate WellFormed(d: Document)
  {
    && d.name.Some?
    && d.resources.Some?
    && forall r :: r in Flatten(d.resources.value) ==> ValidResource(r)
  }

  /**
   * The error `CheckResource` reports is the first rule the resource breaks:
   * the first required attribute, in the order `name`, `src`, `type`,
   * `install_to`, that is missing, and only then an unknown type.
   */
  lemma CheckResourceFirstRule(r: Fields)
    ensures CheckResource(r) == Accepted <==> ValidResource(r)
    ensures forall a :: CheckResource(r) == Rejected(AttributeMissing(a)) <==>
      (exists i :: FirstMissingAt(r, i) && Required[i] == a)
    ensures forall t :: CheckResource(r) == Rejected(UnknownType(t)) <==>
      (forall a :: a in Required ==> a in r) && t == r["type"] && t !in KnownTypes
  {
    forall a | CheckResource(r) == Rejected(AttributeMissing(a))
      ensures exists i :: FirstMissingAt(r, i) && Required[i] == a
    {
      if a == "name" {
        assert Required[0] == a;
      } else if a == "src" {
        assert Required[1] == a;
      } else if a == "type" {
        assert Required[2] == a;
      } else {
        assert Required[3] == a;
      }
    }
  }

  /** `Required[i]` is the first required attribute missing from `r`. */
  predicate FirstMissingAt(r: Fields, i: int)
  {
    0 <= i < |Required| && Required[i] !in r && forall j :: 0 <= j < i ==> Required[j] in r
  }

  /** `rs[k]` is the first resource of `rs` that fails, and it fails with `e`. */
  predicate FirstFailureAt(rs: seq<Fields>, k: int, e: ManifestError)
  {
    0 <= k < |rs| && CheckResource(rs[k]) == Rejected(e) &&
    forall j :: 0 <= j < k ==> CheckResource(rs[j]) == Accepted
  }

  /** Checking two lists in turn is checking their concatenation. */
  lemma {:induction false} CheckResourcesAppend(a: seq<Fields>, b: seq<Fields>)
    ensures CheckResources(a + b) ==
      if CheckResources(a).Rejected? then CheckResources(a) else CheckResources(b)
  {
    if a == [] {
      assert a + b == b;
    } else {
      assert (a + b)[0] == a[0] && (a + b)[1..] == a[1..] + b;
      CheckResourcesAppend(a[1..], b);
    }
  }

  /** Checking group after group is checking the flattened resource list. */
  lemma {:induction false} CheckGroupsFlatten(gs: seq<Group>)
    ensures CheckGroups(gs) == CheckResources(Flatten(gs))
    decreases |gs|
  {
    if gs != [] {
      var rest := gs[1..];
      CheckGroupsFlatten(rest);
      FlattenCons(gs);
      CheckResourcesAppend(gs[0].resources, Flatten(rest));
    }
  }

  lemma {:induction false} FlattenCons(gs: seq<Group>)
    requires gs != []
    ensures Flatten(gs) == gs[0].resources + Flatten(gs[1..])
    decreases |gs|
  {
    if |gs| > 1 {
      var init := gs[..|gs| - 1];
      FlattenCons(init);
      assert init[1..] == gs[1..][..|gs[1..]| - 1];
      assert init[0] == gs[0];
    } else {
      assert gs[..0] == [];
    }
  }

  /** A list passes iff each of its resources passes. */
  lemma {:induction false} CheckResourcesAll(rs: seq<Fields>)
    ensures CheckResources(rs) == Accepted <==> forall r :: r in rs ==> CheckResource(r) == Accepted
  {
    if rs != [] {
      CheckResourcesAll(rs[1..]);
      assert forall r :: r in rs ==> r == rs[0] || r in rs[1..];
    }
  }

  /**
   * `_check_yaml` accepts exactly the well-formed manifests; an empty
   * `resources` mapping is accepted.
   */
  lemma CheckManifestAccepts(d: Document)
    ensures CheckManifest(d) == Accepted <==> WellFormed(d)
    ensures d.name.Some? && d.resources == Some([]) ==> CheckManifest(d) == Accepted
  {
    if d.name.Some? && d.resources.Some? {
      var flat := Flatten(d.resources.value);
      CheckGroupsFlatten(d.resources.value);
      CheckResourcesAll(flat);
      forall r | r in flat ensures CheckResource(r) == Accepted <==> ValidResource(r) {
        CheckResourceFirstRule(r);
      }
    }
  }

  /**
   * Fail fast: a resource error is reported exactly when some resource, in
   * installation order, breaks a rule and every resource before it passed;
   * the error is that resource's.
   */
  lemma {:induction false} CheckResourcesFirstFailure(rs: seq<Fields>, e: ManifestError)
    ensures CheckResources(rs) == Rejected(e) <==> exists k :: FirstFailureAt(rs, k, e)
  {
    if rs != [] {
      CheckResourcesFirstFailure(rs[1..], e);
      if CheckResources(rs) == Rejected(e) {
        if CheckResource(rs[0]) == Rejected(e) {
          assert FirstFailureAt(rs, 0, e);
        } else {
          var k :| FirstFailureAt(rs[1..], k, e);
          assert FirstFailureAt(rs, k + 1, e);
        }
      }
      if exists k :: FirstFailureAt(rs, k, e) {
        var k :| FirstFailureAt(rs, k, e);
        if k > 0 {
          assert CheckResource(rs[0]) == Accepted;
          forall j | 0 <= j < k - 1 ensures CheckResource(rs[1..][j]) == Accepted {
            assert rs[1..][j] == rs[j + 1];
          }
          assert FirstFailureAt(rs[1..], k - 1, e);
        }
      }
    }
  }

  /** The manifest-level statement of fail-fast, over all groups in order. */
  lemma CheckManifestFirstFailure(d: Document, e: ManifestError)
    requires d.name.Some? && d.resources.Some?
    ensures CheckManifest(d) == Rejected(e) <==>
      exists k :: FirstFailureAt(Flatten(d.resources.value), k, e)
  {
    CheckGroupsFlatten(d.resources.value);
    CheckResourcesFirstFailure(Flatten(d.resources.value), e);
  }
}
