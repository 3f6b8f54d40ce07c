// The policy metadata document and the validation it undergoes when a policy
// is loaded: the Kubernetes admission-rule invariants of each `Rule`
// (non-empty lists, an exclusive `*`, the resource/subresource wildcard
// check), the non-empty fields of each context-aware resource, and the
// coherence of protocol version and execution mode.
module PolicyMetadata {
  import opened Wrappers
  import opened Sdk
  import opened PolicyEvaluator

  // ---------------------------------------------------------------------
  // Operations

  // The admission operations a rule can match; `All` is written `*`.
  datatype Operation = Create | Update | Delete | Connect | All

  // The name an operation has in a metadata document.
  function OperationName(op: Operation): (s: string)
    ensures s == "*" <==> op == All
  {
    match op
    case Create => "CREATE"
    case Update => "UPDATE"
    case Delete => "DELETE"
    case Connect => "CONNECT"
    case All => "*"
  }

  // `Operation::try_from(&str)`: exactly the five names are accepted, case-sensitively.
  function ParseOperation(op: string): (r: Result<Operation, string>)
    ensures r.Success? <==> op in {"CREATE", "UPDATE", "DELETE", "CONNECT", "*"}
    ensures r.Success? ==> OperationName(r.value) == op
    ensures r.Failure? ==> r.error == "unknown operation"
  {
    match op
    case "CREATE" => Success(Create)
    case "UPDATE" => Success(Update)
    case "DELETE" => Success(Delete)
    case "CONNECT" => Success(Connect)
    case "*" => Success(All)
    case _ => Failure("unknown operation")
  }

  // Parsing an operation's own name gives that operation back.
  lemma ParseOperationName(op: Operation)
    ensures ParseOperation(OperationName(op)) == Success(op)
  {
    match op
    case Create =>
    case Update =>
    case Delete =>
    case Connect =>
    case All =>
  }

  // Two names that parse to the same operation are the same name.
  lemma ParseOperationInjective(a: string, b: string)
    requires ParseOperation(a).Success? && ParseOperation(a) == ParseOperation(b)
    ensures a == b
  {
  }

  // ---------------------------------------------------------------------
  // Splitting a resource on its first '/'

  // The position of the first '/' in `s`, if there is one.
  function SlashIndex(s: string): (r: Option<nat>)
    ensures r.None? <==> '/' !in s
    ensures r.Some? ==> r.value < |s| && s[r.value] == '/' && '/' !in s[..r.value]
  {
    if s == [] then None
    else if s[0] == '/' then Some(0)
    else match SlashIndex(s[1..])
      case None => None
      case Some(k) =>
        assert s[..k + 1] == [s[0]] + s[1..][..k];
        Some(k + 1)
  }

  // `resource.splitn(2, '/')` with two parts: the text before the first '/'
  // and everything after it; nothing when there is no '/'.
  function SplitResource(s: string): (r: Option<(string, string)>)
    ensures r.None? <==> '/' !in s
    ensures r.Some? ==> s == r.value.0 + "/" + r.value.1 && '/' !in r.value.0
  {
    match SlashIndex(s)
    case None => None
    case Some(k) =>
      assert s == s[..k] + "/" + s[k + 1..];
      Some((s[..k], s[k + 1..]))
  }

  // A resource name without '/' followed by "/sub" splits back into the two.
  lemma SplitJoined(res: string, sub: string)
    requires '/' !in res
    ensures SplitResource(res + "/" + sub) == Some((res, sub))
  {
    var s := res + "/" + sub;
    assert s[|res|] == '/';
    var r := SplitResource(s);
    assert r.Some?;
    var (a, b) := r.value;
    assert |a| == |res|;
    assert a == s[..|res|] == res;
    assert b == s[|res| + 1..] == sub;
  }

  // `"a/b/c"` splits as `("a", "b/c")`: only the first '/' separates.
  lemma SplitKeepsLaterSlashes()
    ensures SplitResource("a/b/c") == Some(("a", "b/c"))
  {
    assert "a/b/c" == "a" + "/" + "b/c";
    SplitJoined("a", "b/c");
  }

  // ---------------------------------------------------------------------
  // The resource wildcard check (`validate_resources`)

  // Why a resource list was refused.
  datatype ResourceError =
      // An element is the empty string.
    | EmptyResource
      // `resource` is `res/sub` and an earlier element was `res/*`.
    | WildcardSubresourceConflict(resource: string, res: string)
      // `resource` is `res/sub` and an earlier element was `*/sub`.
    | WildcardResourceConflict(resource: string, sub: string)
      // `*/*` appears in a list of more than one element.
    | DoubleWildcardWithOthers
      // `*` appears and the last element without '/' is not `*`.
    | SingleWildcardWithBareResources

  // The fault, if any, the wildcard check finds on element `i` once every earlier
  // element has passed: an empty element, or a `res/sub` whose `res/*` or
  // `*/sub` occurs earlier in the list. Elements without '/' never fault here.
  function ElementFault(data: seq<string>, i: nat): (r: Option<ResourceError>)
    requires i < |data|
    ensures r == Some(EmptyResource) <==> data[i] == ""
  {
    var resource := data[i];
    if resource == "" then Some(EmptyResource)
    else match SplitResource(resource)
      case None => None
      case Some((res, sub)) =>
        if res + "/*" in data[..i] then Some(WildcardSubresourceConflict(resource, res))
        else if "*/" + sub in data[..i] then Some(WildcardResourceConflict(resource, sub))
        else None
  }

  // The first element at or after `from` that faults, with its fault.
  function FirstFault(data: seq<string>, from: nat): (r: Option<(nat, ResourceError)>)
    requires from <= |data|
    decreases |data| - from
    ensures r.None? ==> forall k :: from <= k < |data| ==> ElementFault(data, k).None?
    ensures r.Some? ==>
              && from <= r.value.0 < |data|
              && ElementFault(data, r.value.0) == Some(r.value.1)
              && forall k :: from <= k < r.value.0 ==> ElementFault(data, k).None?
  {
    if from == |data| then None
    else match ElementFault(data, from)
      case Some(e) => Some((from, e))
      case None => FirstFault(data, from + 1)
  }

  // The position of the last element before `n` without '/': the only one
  // `has_resource_without_subresource` remembers, because each such element
  // assigns the flag anew.
  function LastBareIndex(data: seq<string>, n: nat): (r: Option<nat>)
    requires n <= |data|
    ensures r.None? <==> forall k :: 0 <= k < n ==> '/' in data[k]
    ensures r.Some? ==> r.value < n && '/' !in data[r.value]
    ensures r.Some? ==> forall j :: r.value < j < n ==> '/' in data[j]
  {
    if n == 0 then None
    else if '/' !in data[n - 1] then Some(n - 1)
    else LastBareIndex(data, n - 1)
  }

  // The value `has_resource_without_subresource` holds after the first `n` elements.
  predicate HasBareNonStar(data: seq<string>, n: nat)
    requires n <= |data|
  {
    LastBareIndex(data, n).Some? && data[LastBareIndex(data, n).value] != "*"
  }

  // The verdict of `validate_resources`: the first faulty element decides;
  // when there is none, `*/*` in a longer list, then a `*` beside a bare
  // resource, are refused.
  function ResourcesVerdict(data: seq<string>): Result<(), ResourceError> {
    match FirstFault(data, 0)
    case Some((_, e)) => Failure(e)
    case None =>
      if |data| > 1 && "*/*" in data then Failure(DoubleWildcardWithOthers)
      else if "*" in data && HasBareNonStar(data, |data|) then Failure(SingleWildcardWithBareResources)
      else Success(())
  }

  // `{res}` when `x` is `res/*`, else nothing.
  function WildcardSubresourceOwner(x: string): set<string> {
    match SplitResource(x)
    case Some((res, sub)) => if sub == "*" then {res} else {}
    case None => {}
  }

  // `{sub}` when `x` is `*/sub`, else nothing.
  function WildcardResourceSubresource(x: string): set<string> {
    match SplitResource(x)
    case Some((res, sub)) => if res == "*" then {sub} else {}
    case None => {}
  }

  // A list passes exactly when no element faults, `*/*` does not share the
  // list with another element, and `*` does not meet a last bare element
  // other than itself.
  lemma ResourcesVerdictSuccessIff(data: seq<string>)
    ensures ResourcesVerdict(data).Success? <==>
              && (forall k :: 0 <= k < |data| ==> ElementFault(data, k).None?)
              && !(|data| > 1 && "*/*" in data)
              && !("*" in data && HasBareNonStar(data, |data|))
  {
    var f := FirstFault(data, 0);
    if f.Some? {
      assert ElementFault(data, f.value.0).Some?;
    }
  }

  // The `res` of every `res/*` among the first `n` elements:
  // `resources_with_wildcard_subresources` after `n` steps.
  ghost function WildcardSubresourceOwners(data: seq<string>, n: nat): set<string>
    requires n <= |data|
  {
    if n == 0 then {}
    else WildcardSubresourceOwners(data, n - 1) + WildcardSubresourceOwner(data[n - 1])
  }

  // The `sub` of every `*/sub` among the first `n` elements:
  // `subresources_with_wildcard_resource` after `n` steps.
  ghost function WildcardResourceSubresources(data: seq<string>, n: nat): set<string>
    requires n <= |data|
  {
    if n == 0 then {}
    else WildcardResourceSubresources(data, n - 1) + WildcardResourceSubresource(data[n - 1])
  }

  // Whether `x` is among the first `n` elements: a flag of the loop after `n` steps.
  predicate OccursBefore(data: seq<string>, n: nat, x: string)
    requires n <= |data|
  {
    n > 0 && (data[n - 1] == x || OccursBefore(data, n - 1, x))
  }

  lemma {:induction false} OccursBeforeIn(data: seq<string>, n: nat, x: string)
    requires n <= |data|
    ensures OccursBefore(data, n, x) <==> x in data[..n]
  {
    if n > 0 {
      assert data[..n] == data[..n - 1] + [data[n - 1]];
      OccursBeforeIn(data, n - 1, x);
    }
  }

  lemma {:induction false} WildcardSubresourceOwnersHas(data: seq<string>, n: nat, res: string)
    requires n <= |data| && '/' !in res
    ensures res in WildcardSubresourceOwners(data, n) <==> res + "/*" in data[..n]
  {
    if n > 0 {
      assert data[..n] == data[..n - 1] + [data[n - 1]];
      WildcardSubresourceOwnersHas(data, n - 1, res);
      SplitJoined(res, "*");
      assert res + "/*" == res + "/" + "*";
    }
  }

  lemma {:induction false} WildcardResourceSubresourcesHas(data: seq<string>, n: nat, sub: string)
    requires n <= |data|
    ensures sub in WildcardResourceSubresources(data, n) <==> "*/" + sub in data[..n]
  {
    if n > 0 {
      assert data[..n] == data[..n - 1] + [data[n - 1]];
      WildcardResourceSubresourcesHas(data, n - 1, sub);
      SplitJoined("*", sub);
      assert "*/" + sub == "*" + "/" + sub;
    }
  }

  // How the tracked state of the loop moves with one more element.
  lemma TrackedStep(data: seq<string>, i: nat)
    requires i < |data|
    ensures SplitResource(data[i]).None? ==>
              && WildcardSubresourceOwners(data, i + 1) == WildcardSubresourceOwners(data, i)
              && WildcardResourceSubresources(data, i + 1) == WildcardResourceSubresources(data, i)
    ensures SplitResource(data[i]).Some? ==>
              var (res, sub) := SplitResource(data[i]).value;
              && WildcardSubresourceOwners(data, i + 1)
                 == (if sub == "*" then WildcardSubresourceOwners(data, i) + {res} else WildcardSubresourceOwners(data, i))
              && WildcardResourceSubresources(data, i + 1)
                 == (if res == "*" then WildcardResourceSubresources(data, i) + {sub} else WildcardResourceSubresources(data, i))
    ensures OccursBefore(data, i + 1, "*/*") == (data[i] == "*/*" || OccursBefore(data, i, "*/*"))
    ensures OccursBefore(data, i + 1, "*") == (data[i] == "*" || OccursBefore(data, i, "*"))
    ensures HasBareNonStar(data, i + 1) ==
              if '/' !in data[i] then data[i] != "*" else HasBareNonStar(data, i)
  {
  }

  // The fault of a non-empty `res/sub` element, read off the tracked sets.
  lemma SplitElementFault(data: seq<string>, i: nat, res: string, sub: string)
    requires i < |data| && data[i] != "" && SplitResource(data[i]) == Some((res, sub))
    ensures ElementFault(data, i) ==
              if res in WildcardSubresourceOwners(data, i) then Some(WildcardSubresourceConflict(data[i], res))
              else if sub in WildcardResourceSubresources(data, i) then Some(WildcardResourceConflict(data[i], sub))
              else None
  {
    WildcardSubresourceOwnersHas(data, i, res);
    WildcardResourceSubresourcesHas(data, i, sub);
  }

  // When no element before `i` faults and element `i` does, its fault is the verdict.
  lemma FaultAfterPassingPrefix(data: seq<string>, i: nat)
    requires i < |data| && ElementFault(data, i).Some?
    requires FirstFault(data, 0) == FirstFault(data, i)
    ensures ResourcesVerdict(data) == Failure(ElementFault(data, i).value)
  {
  }

  // An element without '/' never faults.
  lemma BareElementPasses(data: seq<string>, i: nat)
    requires i < |data| && data[i] != "" && SplitResource(data[i]).None?
    ensures ElementFault(data, i).None?
  {
  }

  // When no element faults, the tail checks decide.
  lemma VerdictWithoutFault(data: seq<string>)
    requires forall k :: 0 <= k < |data| ==> ElementFault(data, k).None?
    ensures ResourcesVerdict(data) ==
              if |data| > 1 && "*/*" in data then Failure(DoubleWildcardWithOthers)
              else if "*" in data && HasBareNonStar(data, |data|) then Failure(SingleWildcardWithBareResources)
              else Success(())
  {
    assert FirstFault(data, 0).None?;
  }

  // `validate_resources`: one pass over the list, keeping two sets and three flags.
  method ValidateResources(data: seq<string>) returns (r: Result<(), ResourceError>)
    ensures r == ResourcesVerdict(data)
  {
    // x/*
    var resourcesWithWildcardSubresources: set<string> := {};
    // */x
    var subresourcesWithWildcardResource: set<string> := {};
    var hasDoubleWildcard := false;
    var hasSingleWildcard := false;
    var hasResourceWithoutSubresource := false;

    for i := 0 to |data|
      invariant FirstFault(data, 0) == FirstFault(data, i)
      invariant resourcesWithWildcardSubresources == WildcardSubresourceOwners(data, i)
      invariant subresourcesWithWildcardResource == WildcardResourceSubresources(data, i)
      invariant hasDoubleWildcard == OccursBefore(data, i, "*/*")
      invariant hasSingleWildcard == OccursBefore(data, i, "*")
      invariant hasResourceWithoutSubresource == HasBareNonStar(data, i)
    {
      var resource := data[i];
      TrackedStep(data, i);
      if resource == "" {
        FaultAfterPassingPrefix(data, i);
        return Failure(EmptyResource);
      }
      if resource == "*/*" {
        hasDoubleWildcard := true;
      } else if resource == "*" {
        hasSingleWildcard := true;
      }
      var parts := SplitResource(resource);
      if parts.None? {
        hasResourceWithoutSubresource := resource != "*";
        BareElementPasses(data, i);
      } else {
        var res, sub := parts.value.0, parts.value.1;
        SplitElementFault(data, i, res, sub);
        if res in resourcesWithWildcardSubresources {
          FaultAfterPassingPrefix(data, i);
          return Failure(WildcardSubresourceConflict(resource, res));
        }
        if sub in subresourcesWithWildcardResource {
          FaultAfterPassingPrefix(data, i);
          return Failure(WildcardResourceConflict(resource, sub));
        }
        if sub == "*" {
          resourcesWithWildcardSubresources := resourcesWithWildcardSubresources + {res};
        }
        if res == "*" {
          subresourcesWithWildcardResource := subresourcesWithWildcardResource + {sub};
        }
      }
    }
    assert data[..|data|] == data;
    OccursBeforeIn(data, |data|, "*/*");
    OccursBeforeIn(data, |data|, "*");
    if |data| > 1 && hasDoubleWildcard {
      return Failure(DoubleWildcardWithOthers);
    }
    if hasSingleWildcard && hasResourceWithoutSubresource {
      return Failure(SingleWildcardWithBareResources);
    }
    return Success(());
  }

  // ---------------------------------------------------------------------
  // What the wildcard check accepts and refuses

  // An empty element anywhere makes the list fail, whatever precedes it.
  lemma EmptyResourceRejected(data: seq<string>)
    requires "" in data
    ensures ResourcesVerdict(data).Failure?
  {
    var i :| 0 <= i < |data| && data[i] == "";
    assert ElementFault(data, i).Some?;
  }

  // `*/*` beside any other element makes the list fail.
  lemma DoubleWildcardExclusive(data: seq<string>)
    requires "*/*" in data && |data| > 1
    ensures ResourcesVerdict(data).Failure?
  {
  }

  // `res/sub` fails when `res/*` came earlier.
  lemma EarlierWildcardSubresourceRejects(data: seq<string>, j: nat, i: nat, res: string, sub: string)
    requires j < i < |data| && '/' !in res
    requires data[j] == res + "/*" && data[i] == res + "/" + sub
    ensures ResourcesVerdict(data).Failure?
  {
    SplitJoined(res, sub);
    assert data[..i][j] == data[j];
    assert ElementFault(data, i).Some?;
  }

  // `res/sub` fails when `*/sub` came earlier.
  lemma EarlierWildcardResourceRejects(data: seq<string>, j: nat, i: nat, res: string, sub: string)
    requires j < i < |data| && '/' !in res
    requires data[j] == "*/" + sub && data[i] == res + "/" + sub
    ensures ResourcesVerdict(data).Failure?
  {
    SplitJoined(res, sub);
    assert data[..i][j] == data[j];
    assert ElementFault(data, i).Some?;
  }

  // When `*` is present and nothing else is wrong, the list fails exactly
  // when the last element without '/' is something other than `*`.
  lemma SingleWildcardDecidedByLastBare(data: seq<string>)
    requires "*" in data
    requires forall k :: 0 <= k < |data| ==> ElementFault(data, k).None?
    requires !(|data| > 1 && "*/*" in data)
    ensures LastBareIndex(data, |data|).Some?
    ensures ResourcesVerdict(data).Failure? <==> data[LastBareIndex(data, |data|).value] != "*"
  {
    var k :| 0 <= k < |data| && data[k] == "*";
    assert '/' !in data[k];
  }

  // ---------------------------------------------------------------------
  // Error messages

  // The shape shared by the two conflict messages: the pattern that is
  // present and the element it forbids.
  function ConflictMessage(pattern: string, forbidden: string): string {
    "if '" + pattern + "' is present, must not specify " + forbidden
  }

  // The message `validate_resources` attaches to each refusal, with the
  // wildcard-subresource message naming the `res/*` pattern and the element
  // it forbids, as the matching `*/sub` message does.
  function ResourceErrorMessage(e: ResourceError): (msg: string)
    ensures e.WildcardSubresourceConflict? ==> msg == ConflictMessage(e.res + "/*", e.resource)
    ensures e.WildcardResourceConflict? ==> msg == ConflictMessage("*/" + e.sub, e.resource)
  {
    match e
    case EmptyResource => "empty resource is not allowed"
    case WildcardSubresourceConflict(resource, res) => ConflictMessage(res + "/*", resource)
    case WildcardResourceConflict(resource, sub) => ConflictMessage("*/" + sub, resource)
    case DoubleWildcardWithOthers => "if '*/*' is present, must not specify other resources"
    case SingleWildcardWithBareResources =>
      "if '*' is present, must not specify other resources without subresources"
  }

  // The wildcard-subresource message as the source formats it: the offending
  // element where the pattern belongs and the bare resource where the element belongs.
  function WildcardSubresourceMessageAsWritten(resource: string, res: string): (msg: string)
    ensures msg == ConflictMessage(resource + "/*", res)
  {
    "if '" + resource + "/*" + "' is present, must not specify " + res
  }

  // For a conflict refusal, the message quotes an earlier element of the
  // list as the pattern and the refused element after it as forbidden.
  lemma ConflictMessageQuotesEarlierElement(data: seq<string>)
    requires ResourcesVerdict(data).Failure?
    requires ResourcesVerdict(data).error.WildcardSubresourceConflict?
             || ResourcesVerdict(data).error.WildcardResourceConflict?
    ensures exists j, i :: 0 <= j < i < |data| &&
              ResourceErrorMessage(ResourcesVerdict(data).error) == ConflictMessage(data[j], data[i])
  {
    var f := FirstFault(data, 0);
    var i := f.value.0;
    var j := ConflictFaultQuotes(data, i);
  }

  // A conflict fault on element `i` names an earlier element `j` as its pattern.
  lemma ConflictFaultQuotes(data: seq<string>, i: nat) returns (j: nat)
    requires i < |data| && ElementFault(data, i).Some?
    requires ElementFault(data, i).value.WildcardSubresourceConflict?
             || ElementFault(data, i).value.WildcardResourceConflict?
    ensures j < i && ResourceErrorMessage(ElementFault(data, i).value) == ConflictMessage(data[j], data[i])
  {
    var e := ElementFault(data, i).value;
    var (res, sub) := SplitResource(data[i]).value;
    var pattern := if e.WildcardSubresourceConflict? then res + "/*" else "*/" + sub;
    assert pattern in data[..i];
    j :| 0 <= j < i && data[..i][j] == pattern;
  }

  // On `["a/*", "a/x"]` the message as written quotes `a/x/*`, which is not
  // in the list, and forbids `a`, which is not the refused element; the
  // corrected message quotes the first element and forbids the second.
  lemma AsWrittenMessageMisquotes()
    ensures ResourcesVerdict(["a/*", "a/x"]) == Failure(WildcardSubresourceConflict("a/x", "a"))
    ensures WildcardSubresourceMessageAsWritten("a/x", "a") == ConflictMessage("a/x/*", "a")
    ensures "a/x/*" !in ["a/*", "a/x"]
    ensures ResourceErrorMessage(WildcardSubresourceConflict("a/x", "a")) == ConflictMessage("a/*", "a/x")
    ensures WildcardSubresourceMessageAsWritten("a/x", "a")
            != ResourceErrorMessage(WildcardSubresourceConflict("a/x", "a"))
  {
    RejectsWildcardSubresourceThenSubresource();
    assert "a/x" + "/*" == "a/x/*" && "a" + "/*" == "a/*";
    MessagesDifferAtPattern();
  }

  // The two messages on `["a/*", "a/x"]` part at the third character of the pattern.
  lemma MessagesDifferAtPattern()
    ensures WildcardSubresourceMessageAsWritten("a/x", "a")[6] == 'x'
    ensures ResourceErrorMessage(WildcardSubresourceConflict("a/x", "a"))[6] == '*'
  {
    var written := WildcardSubresourceMessageAsWritten("a/x", "a");
    var intended := ResourceErrorMessage(WildcardSubresourceConflict("a/x", "a"));
    assert written[4..] == "a/x/*" + ("' is present, must not specify " + "a");
    assert intended[4..] == "a" + "/*" + ("' is present, must not specify " + "a/x");
  }

  // ---------------------------------------------------------------------
  // Verdicts on concrete lists

  lemma AcceptsSingleWildcardWithSubresources()
    ensures ResourcesVerdict(["*", "a/b", "a/*", "*/b"]) == Success(())
  {
    var data := ["*", "a/b", "a/*", "*/b"];
    SubresourcePatternsDoNotFault();
    assert data[3][1] == '/' && data[2][1] == '/' && data[1][1] == '/';
    assert LastBareIndex(data, 4) == Some(0);
  }

  lemma SubresourcePatternsDoNotFault()
    ensures forall k :: 0 <= k < 4 ==> ElementFault(["*", "a/b", "a/*", "*/b"], k).None?
  {
    var data := ["*", "a/b", "a/*", "*/b"];
    forall k | 0 <= k < 4
      ensures ElementFault(data, k).None?
    {
      if k == 0 {
        assert SlashIndex(data[0]).None?;
      } else if k == 1 {
        assert data[..1] == ["*"];
        SubresourceWithoutConflict(data, 1, "a", "b");
      } else if k == 2 {
        assert data[..2] == ["*", "a/b"];
        assert "a/*"[2] != "a/b"[2];
        SubresourceWithoutConflict(data, 2, "a", "*");
      } else {
        assert data[..3] == ["*", "a/b", "a/*"];
        assert "*/" + "b" == "*/b" && "*" + "/*" == "*/*";
        assert "*/b"[0] != "a/b"[0] && "*/b"[0] != "a/*"[0] && "*/*"[0] != "a/b"[0] && "*/*"[0] != "a/*"[0];
        SubresourceWithoutConflict(data, 3, "*", "b");
      }
    }
  }

  // An element `res/sub` passes when neither `res/*` nor `*/sub` came before it.
  lemma SubresourceWithoutConflict(data: seq<string>, i: nat, res: string, sub: string)
    requires i < |data| && '/' !in res && data[i] == res + "/" + sub
    requires res + "/*" !in data[..i] && "*/" + sub !in data[..i]
    ensures ElementFault(data, i).None?
  {
    SplitJoined(res, sub);
  }

  // The first element can only fault by being empty.
  lemma FirstElementFault(data: seq<string>)
    requires |data| > 0
    ensures ElementFault(data, 0) == if data[0] == "" then Some(EmptyResource) else None
  {
    assert data[..0] == [];
  }

  // In a two-element list, `res/sub` after `a` faults exactly when `a` is
  // `res/*` or `*/sub`.
  lemma SecondElementFault(a: string, res: string, sub: string)
    requires '/' !in res
    ensures ElementFault([a, res + "/" + sub], 1) ==
              if a == res + "/*" then Some(WildcardSubresourceConflict(res + "/" + sub, res))
              else if a == "*/" + sub then Some(WildcardResourceConflict(res + "/" + sub, sub))
              else None
  {
    var data := [a, res + "/" + sub];
    assert data[..1] == [a];
    SplitJoined(res, sub);
  }

  lemma RejectsSingleWildcardThenBare()
    ensures ResourcesVerdict(["*", "a"]) == Failure(SingleWildcardWithBareResources)
  {
    var data := ["*", "a"];
    assert forall k :: 0 <= k < 2 ==> ElementFault(data, k).None?;
  }

  lemma AcceptsBareThenSingleWildcard()
    ensures ResourcesVerdict(["a", "*"]) == Success(())
  {
    var data := ["a", "*"];
    assert forall k :: 0 <= k < 2 ==> ElementFault(data, k).None?;
  }

  lemma RejectsWildcardSubresourceThenSubresource()
    ensures ResourcesVerdict(["a/*", "a/x"]) == Failure(WildcardSubresourceConflict("a/x", "a"))
  {
    var data := ["a/*", "a/x"];
    FirstElementFault(data);
    SecondElementFault("a/*", "a", "x");
    assert "a" + "/" + "x" == "a/x" && "a" + "/*" == "a/*";
    FaultAfterPassingPrefix(data, 1);
  }

  lemma AcceptsSubresourceThenWildcardSubresource()
    ensures ResourcesVerdict(["a/x", "a/*"]) == Success(())
  {
    var data := ["a/x", "a/*"];
    FirstElementFault(data);
    SecondElementFault("a/x", "a", "*");
    assert "a" + "/" + "*" == "a/*" && "a" + "/*" == "a/*" && "*/" + "*" == "*/*";
    assert "a/x"[2] != "a/*"[2] && "a/x"[0] != "*/*"[0];
    VerdictWithoutFault(data);
  }

  lemma RejectsRepeatedWildcardSubresource()
    ensures ResourcesVerdict(["a/*", "a/*"]) == Failure(WildcardSubresourceConflict("a/*", "a"))
  {
    var data := ["a/*", "a/*"];
    FirstElementFault(data);
    SecondElementFault("a/*", "a", "*");
    assert "a" + "/" + "*" == "a/*" && "a" + "/*" == "a/*";
    FaultAfterPassingPrefix(data, 1);
  }

  lemma RejectsWildcardResourceThenSubresource()
    ensures ResourcesVerdict(["*/a", "x/a"]) == Failure(WildcardResourceConflict("x/a", "a"))
  {
    var data := ["*/a", "x/a"];
    FirstElementFault(data);
    SecondElementFault("*/a", "x", "a");
    assert "x" + "/" + "a" == "x/a" && "x" + "/*" == "x/*" && "*/" + "a" == "*/a";
    assert "*/a"[0] != "x/*"[0];
    FaultAfterPassingPrefix(data, 1);
  }

  lemma RejectsDoubleWildcardWithBare()
    ensures ResourcesVerdict(["*/*", "a"]) == Failure(DoubleWildcardWithOthers)
  {
    var data := ["*/*", "a"];
    FirstElementFault(data);
    assert SlashIndex(data[1]).None?;
    VerdictWithoutFault(data);
  }

  lemma AcceptsWildcardSubresourceWithBare()
    ensures ResourcesVerdict(["a/*", "a"]) == Success(())
  {
    var data := ["a/*", "a"];
    FirstElementFault(data);
    assert SlashIndex(data[1]).None?;
    assert data[1] != "*" && data[0] != "*";
    VerdictWithoutFault(data);
  }

  // ---------------------------------------------------------------------
  // Rules

  // One admission rule of a policy.
  datatype Rule = Rule(
    apiGroups: seq<string>,
    apiVersions: seq<string>,
    resources: seq<string>,
    operations: seq<Operation>)

  const AsteriskMessage := "No other elements can be defined when '*' is used"

  // `validate_asterisk_usage`: `*` may only stand alone.
  function AsteriskUsage(data: seq<string>): (r: Result<(), string>)
    ensures r.Failure? <==> "*" in data && |data| > 1
    ensures r.Failure? ==> r.error == AsteriskMessage
  {
    if "*" in data && |data| > 1 then Failure(AsteriskMessage) else Success(())
  }

  // `validate_asterisk_usage_inside_of_operations`: `All` may only stand alone.
  function OperationsAsteriskUsage(data: seq<Operation>): (r: Result<(), string>)
    ensures r.Failure? <==> All in data && |data| > 1
    ensures r.Failure? ==> r.error == AsteriskMessage
  {
    if All in data && |data| > 1 then Failure(AsteriskMessage) else Success(())
  }

  // A list that passes the asterisk check and holds `*` is exactly `["*"]`.
  lemma AsteriskAlone(data: seq<string>)
    requires AsteriskUsage(data).Success? && "*" in data
    ensures data == ["*"]
  {
    assert |data| == 1 && data[0] == "*";
  }

  // An operation list that passes the asterisk check and holds `All` is exactly `[All]`.
  lemma AllOperationsAlone(data: seq<Operation>)
    requires OperationsAsteriskUsage(data).Success? && All in data
    ensures data == [All]
  {
    assert |data| == 1 && data[0] == All;
  }

  datatype RuleField = ApiGroups | ApiVersions | Resources | Operations

  // What a field constraint of `Rule` reports.
  datatype FieldFault =
    | TooFewElements                       // length(min = 1)
    | AsteriskNotExclusive                 // validate_asterisk_usage*
    | ResourceWildcards(error: ResourceError)  // validate_resources

  datatype RuleFault = RuleFault(field: RuleField, fault: FieldFault)

  // The faults of a list of groups or versions: too short, `*` not alone.
  function NameListFaults(field: RuleField, data: seq<string>): (r: set<RuleFault>)
    ensures forall f :: f in r ==> f.field == field && !f.fault.ResourceWildcards?
    ensures RuleFault(field, TooFewElements) in r <==> data == []
    ensures RuleFault(field, AsteriskNotExclusive) in r <==> AsteriskUsage(data).Failure?
    ensures r == {} <==> data != [] && AsteriskUsage(data).Success?
  {
    (if data == [] then {RuleFault(field, TooFewElements)} else {})
    + (if AsteriskUsage(data).Failure? then {RuleFault(field, AsteriskNotExclusive)} else {})
  }

  // The faults of the resources list: too short, and the wildcard check's error.
  function ResourceListFaults(data: seq<string>): (r: set<RuleFault>)
    ensures forall f :: f in r ==> f.field == Resources && !f.fault.AsteriskNotExclusive?
    ensures RuleFault(Resources, TooFewElements) in r <==> data == []
    ensures forall e :: RuleFault(Resources, ResourceWildcards(e)) in r <==> ResourcesVerdict(data) == Failure(e)
    ensures r == {} <==> data != [] && ResourcesVerdict(data).Success?
  {
    (if data == [] then {RuleFault(Resources, TooFewElements)} else {})
    + (match ResourcesVerdict(data)
       case Failure(e) => {RuleFault(Resources, ResourceWildcards(e))}
       case Success(_) => {})
  }

  // The faults of the operations list: too short, `All` not alone.
  function OperationListFaults(data: seq<Operation>): (r: set<RuleFault>)
    ensures forall f :: f in r ==> f.field == Operations && !f.fault.ResourceWildcards?
    ensures RuleFault(Operations, TooFewElements) in r <==> data == []
    ensures RuleFault(Operations, AsteriskNotExclusive) in r <==> OperationsAsteriskUsage(data).Failure?
    ensures r == {} <==> data != [] && OperationsAsteriskUsage(data).Success?
  {
    (if data == [] then {RuleFault(Operations, TooFewElements)} else {})
    + (if OperationsAsteriskUsage(data).Failure? then {RuleFault(Operations, AsteriskNotExclusive)} else {})
  }

  // The constraints derived for `Rule`: every list has an element, `*`
  // (`All`) stands alone in groups, versions and operations, and the
  // resources pass the wildcard check. Every field is checked; the faults
  // accumulate, each tagged with its field.
  function RuleFaults(rule: Rule): (r: set<RuleFault>)
    ensures forall f :: f in r && f.field == ApiGroups ==> f in NameListFaults(ApiGroups, rule.apiGroups)
    ensures forall f :: f in r && f.field == ApiVersions ==> f in NameListFaults(ApiVersions, rule.apiVersions)
    ensures forall f :: f in r && f.field == Resources ==> f in ResourceListFaults(rule.resources)
    ensures forall f :: f in r && f.field == Operations ==> f in OperationListFaults(rule.operations)
    ensures NameListFaults(ApiGroups, rule.apiGroups) <= r && NameListFaults(ApiVersions, rule.apiVersions) <= r
    ensures ResourceListFaults(rule.resources) <= r && OperationListFaults(rule.operations) <= r
    ensures r == {} <==>
              && rule.apiGroups != [] && AsteriskUsage(rule.apiGroups).Success?
              && rule.apiVersions != [] && AsteriskUsage(rule.apiVersions).Success?
              && rule.resources != [] && ResourcesVerdict(rule.resources).Success?
              && rule.operations != [] && OperationsAsteriskUsage(rule.operations).Success?
  {
    var g := NameListFaults(ApiGroups, rule.apiGroups);
    var v := NameListFaults(ApiVersions, rule.apiVersions);
    var res := ResourceListFaults(rule.resources);
    var o := OperationListFaults(rule.operations);
    calc { g + v + res + o == {}; <==> g == {} && v == {} && res == {} && o == {}; }
    g + v + res + o
  }

  // A rule without faults has non-empty lists in which `*` and `All` stand
  // alone wherever they appear.
  lemma ValidRuleAsteriskExclusive(rule: Rule)
    requires RuleFaults(rule) == {}
    ensures |rule.apiGroups| >= 1 && |rule.apiVersions| >= 1
    ensures |rule.resources| >= 1 && |rule.operations| >= 1
    ensures "*" in rule.apiGroups ==> rule.apiGroups == ["*"]
    ensures "*" in rule.apiVersions ==> rule.apiVersions == ["*"]
    ensures All in rule.operations ==> rule.operations == [All]
  {
    if "*" in rule.apiGroups { AsteriskAlone(rule.apiGroups); }
    if "*" in rule.apiVersions { AsteriskAlone(rule.apiVersions); }
    if All in rule.operations { AllOperationsAlone(rule.operations); }
  }

  // The rule all the tests start from: pods in the core group, CREATE.
  function PodRule(): Rule {
    Rule([""], ["v1"], ["pods"], [Create])
  }

  lemma PodRuleIsValid()
    ensures RuleFaults(PodRule()) == {}
  {
    assert forall k :: 0 <= k < 1 ==> ElementFault(["pods"], k).None?;
    assert LastBareIndex(["pods"], 1) == Some(0);
  }

  // Rules the tests refuse: `*` beside another group, no group at all,
  // `All` beside another operation.
  lemma RefusedRules()
    ensures RuleFaults(Rule(["", "*"], ["v1"], ["pods"], [Create]))
            == {RuleFault(ApiGroups, AsteriskNotExclusive)}
    ensures RuleFaults(Rule([], ["v1"], ["pods"], [Create]))
            == {RuleFault(ApiGroups, TooFewElements)}
    ensures RuleFaults(Rule([""], ["v1"], ["pods"], [All, Create]))
            == {RuleFault(Operations, AsteriskNotExclusive)}
  {
    PodRuleIsValid();
  }

  // ---------------------------------------------------------------------
  // Context-aware resources

  // A Kubernetes kind the policy wants to query through the host.
  datatype ContextAwareResource = ContextAwareResource(apiVersion: string, kind: string)

  datatype ContextAwareField = ApiVersion | Kind

  // Both fields must be non-empty.
  function ContextAwareResourceFaults(c: ContextAwareResource): (r: set<ContextAwareField>)
    ensures ApiVersion in r <==> c.apiVersion == ""
    ensures Kind in r <==> c.kind == ""
    ensures r == {} <==> |c.apiVersion| >= 1 && |c.kind| >= 1
  {
    (if c.apiVersion == "" then {ApiVersion} else {}) + (if c.kind == "" then {Kind} else {})
  }

  // ---------------------------------------------------------------------
  // Policy type

  datatype PolicyType = Kubernetes | Raw

  // The name serde gives each policy type.
  function PolicyTypeName(t: PolicyType): string {
    match t
    case Kubernetes => "kubernetes"
    case Raw => "raw"
  }

  // What serde makes of a policy type name; anything else does not deserialize.
  function ParsePolicyType(s: string): (r: Option<PolicyType>)
    ensures r.Some? ==> PolicyTypeName(r.value) == s
  {
    match s
    case "kubernetes" => Some(Kubernetes)
    case "raw" => Some(Raw)
    case _ => None
  }

  // Every character of `s` except '"', in order: `str::replace('"', "")`.
  function RemoveQuotes(s: string): (r: string)
    ensures '"' !in r
    ensures |r| <= |s|
    ensures '"' !in s ==> r == s
    ensures s == "\"" ==> r == []
  {
    if s == [] then []
    else if s[0] == '"' then RemoveQuotes(s[1..])
    else [s[0]] + RemoveQuotes(s[1..])
  }

  // Removing quotes distributes over concatenation.
  lemma {:induction false} RemoveQuotesAppend(a: string, b: string)
    ensures RemoveQuotes(a + b) == RemoveQuotes(a) + RemoveQuotes(b)
  {
    if a != [] {
      assert (a + b)[1..] == a[1..] + b;
      RemoveQuotesAppend(a[1..], b);
    } else {
      assert a + b == b;
    }
  }

  // `Display for PolicyType`: the JSON string of the value with its quotes removed.
  function PolicyTypeDisplay(t: PolicyType): (s: string)
    ensures s == PolicyTypeName(t)
  {
    var name := PolicyTypeName(t);
    RemoveQuotesAppend("\"" + name, "\"");
    RemoveQuotesAppend("\"", name);
    RemoveQuotes("\"" + name + "\"")
  }

  // The displayed name reads back as the same policy type.
  lemma PolicyTypeDisplayRoundTrip(t: PolicyType)
    ensures ParsePolicyType(PolicyTypeDisplay(t)) == Some(t)
  {
  }

  // ---------------------------------------------------------------------
  // Metadata

  // The metadata document a policy module carries. The minimum Kubewarden
  // version is kept as its text.
  datatype Metadata = Metadata(
    protocolVersion: Option<ProtocolVersion>,
    rules: seq<Rule>,
    annotations: Option<map<string, string>>,
    mutating: bool,
    backgroundAudit: bool,
    executionMode: PolicyExecutionMode,
    policyType: PolicyType,
    contextAwareResources: set<ContextAwareResource>,
    minimumKubewardenVersion: Option<string>)

  // `Metadata::default()`.
  function DefaultMetadata(): Metadata
  {
    Metadata(None, [], Some(map[]), false, true, KubewardenWapc, Kubernetes, {}, None)
  }

  // What validating a metadata document reports.
  datatype MetadataFault =
    | ProtocolVersionRequired                  // validate(required)
    | InvalidRule(index: nat, fault: RuleFault)
    | InvalidContextAwareResource(resource: ContextAwareResource, field: ContextAwareField)
    | InvalidProtocolVersion                   // validate_metadata

  // `metadata.validate()`: the derived field checks, the nested checks of
  // every rule and context-aware resource, and `validate_metadata`, which
  // runs as well when a field check fails. The document is valid when
  // nothing is reported.
  function ValidateMetadata(m: Metadata): (r: set<MetadataFault>)
    ensures ProtocolVersionRequired in r <==> m.protocolVersion.None?
    ensures InvalidProtocolVersion in r <==>
              m.executionMode == KubewardenWapc && m.protocolVersion == Some(Unknown)
    ensures forall i: nat, f :: InvalidRule(i, f) in r <==> i < |m.rules| && f in RuleFaults(m.rules[i])
    ensures forall c, f :: InvalidContextAwareResource(c, f) in r <==>
              c in m.contextAwareResources && f in ContextAwareResourceFaults(c)
  {
    (if m.protocolVersion.None? then {ProtocolVersionRequired} else {})
    + (if m.executionMode == KubewardenWapc && m.protocolVersion == Some(Unknown)
       then {InvalidProtocolVersion} else {})
    + RulesReport(m.rules)
    + ContextAwareReport(m.contextAwareResources)
  }

  // The reports of the `rules` field: each fault of each rule, by position.
  function RulesReport(rules: seq<Rule>): (r: set<MetadataFault>)
    ensures forall e :: e in r ==> e.InvalidRule?
    ensures forall i: nat, f :: InvalidRule(i, f) in r <==> i < |rules| && f in RuleFaults(rules[i])
  {
    set i: nat, f | i < |rules| && f in RuleFaults(rules[i]) :: InvalidRule(i, f)
  }

  // The reports of the `context_aware_resources` field: each fault of each resource.
  function ContextAwareReport(resources: set<ContextAwareResource>): (r: set<MetadataFault>)
    ensures forall e :: e in r ==> e.InvalidContextAwareResource?
    ensures forall c, f :: InvalidContextAwareResource(c, f) in r <==>
              c in resources && f in ContextAwareResourceFaults(c)
  {
    set c, f | c in resources && f in ContextAwareResourceFaults(c) :: InvalidContextAwareResource(c, f)
  }

  // A document is valid exactly when it names a protocol version, does not
  // pair the native mode with `Unknown`, and all its rules and context-aware
  // resources are valid.
  lemma ValidateMetadataEmptyIff(m: Metadata)
    ensures ValidateMetadata(m) == {} <==>
              && m.protocolVersion.Some?
              && !(m.executionMode == KubewardenWapc && m.protocolVersion == Some(Unknown))
              && (forall i :: 0 <= i < |m.rules| ==> RuleFaults(m.rules[i]) == {})
              && (forall c :: c in m.contextAwareResources ==> ContextAwareResourceFaults(c) == {})
  {
    var r := ValidateMetadata(m);
    if r == {} {
      forall i | 0 <= i < |m.rules| ensures RuleFaults(m.rules[i]) == {} {
        if f :| f in RuleFaults(m.rules[i]) {
        }
      }
      forall c | c in m.contextAwareResources ensures ContextAwareResourceFaults(c) == {} {
        if f :| f in ContextAwareResourceFaults(c) {
        }
      }
    } else {
      var e :| e in r;
    }
  }

  // Protocol/mode coherence: a valid document has a protocol version, and
  // in the native mode it is not `Unknown`.
  lemma ValidMetadataHasUsableProtocol(m: Metadata)
    requires ValidateMetadata(m) == {}
    ensures m.protocolVersion.Some?
    ensures m.executionMode == KubewardenWapc ==> m.protocolVersion.value != Unknown
  {
    assert ProtocolVersionRequired !in ValidateMetadata(m);
    assert InvalidProtocolVersion !in ValidateMetadata(m);
  }

  // The default document only lacks its protocol version.
  lemma DefaultMetadataNeedsProtocolVersion()
    ensures ValidateMetadata(DefaultMetadata()) == {ProtocolVersionRequired}
  {
    var r := ValidateMetadata(DefaultMetadata());
    forall e | e in r ensures e == ProtocolVersionRequired {
    }
  }

  // `Unknown` is refused in the native mode, accepted by both Rego modes;
  // `V1` is accepted in the native mode.
  lemma ProtocolVersionAgainstMode(mode: PolicyExecutionMode)
    ensures ValidateMetadata(DefaultMetadata().(protocolVersion := Some(Unknown), executionMode := mode)) == {}
            <==> mode != KubewardenWapc
    ensures ValidateMetadata(DefaultMetadata().(protocolVersion := Some(V1), executionMode := KubewardenWapc)) == {}
  {
    ValidateMetadataEmptyIff(DefaultMetadata().(protocolVersion := Some(Unknown), executionMode := mode));
    ValidateMetadataEmptyIff(DefaultMetadata().(protocolVersion := Some(V1), executionMode := KubewardenWapc));
  }

  // A `V1` document with the pod rule validates.
  lemma MetadataWithPodRuleIsValid()
    ensures ValidateMetadata(DefaultMetadata().(protocolVersion := Some(V1), rules := [PodRule()])) == {}
  {
    var m := DefaultMetadata().(protocolVersion := Some(V1), rules := [PodRule()]);
    PodRuleIsValid();
    assert forall i :: 0 <= i < |m.rules| ==> m.rules[i] == PodRule();
    ValidateMetadataEmptyIff(m);
  }

  // The same document with `*` beside another group does not.
  lemma MetadataWithRefusedRuleIsInvalid()
    ensures ValidateMetadata(DefaultMetadata().(protocolVersion := Some(V1),
              rules := [Rule(["", "*"], ["v1"], ["pods"], [Create])])) != {}
  {
    var rule := Rule(["", "*"], ["v1"], ["pods"], [Create]);
    var m := DefaultMetadata().(protocolVersion := Some(V1), rules := [rule]);
    assert RuleFault(ApiGroups, AsteriskNotExclusive) in NameListFaults(ApiGroups, rule.apiGroups);
    assert m.rules[0] == rule;
    assert InvalidRule(0, RuleFault(ApiGroups, AsteriskNotExclusive)) in ValidateMetadata(m);
  }

  // A context-aware resource with an empty api version or kind invalidates the document.
  lemma EmptyContextAwareFieldsRefused(m: Metadata, c: ContextAwareResource)
    requires c in m.contextAwareResources && (c.apiVersion == "" || c.kind == "")
    ensures ValidateMetadata(m) != {}
  {
    var f := if c.apiVersion == "" then ApiVersion else Kind;
    assert InvalidContextAwareResource(c, f) in ValidateMetadata(m);
  }

  // ---------------------------------------------------------------------
  // Converting a Kubernetes `NamedRuleWithOperations`

  // The fields of a Kubernetes rule the conversion reads; each may be absent.
  datatype NamedRuleWithOperations = NamedRuleWithOperations(
    apiGroups: Option<seq<string>>,
    apiVersions: Option<seq<string>>,
    resources: Option<seq<string>>,
    operations: Option<seq<string>>)

  // `ops.iter().map(Operation::try_from).collect()`: the first name that does
  // not parse ends the conversion with its error.
  function ParseOperations(ops: seq<string>): (r: Result<seq<Operation>, string>)
    ensures r.Success? <==> forall k :: 0 <= k < |ops| ==> ParseOperation(ops[k]).Success?
    ensures r.Success? ==> |r.value| == |ops|
    ensures r.Success? ==> forall k :: 0 <= k < |ops| ==> ParseOperation(ops[k]) == Success(r.value[k])
    ensures r.Failure? ==> r.error == "unknown operation"
  {
    if ops == [] then Success([])
    else match ParseOperation(ops[0])
      case Failure(e) => Failure(e)
      case Success(op) =>
        match ParseOperations(ops[1..])
        case Failure(e) => Failure(e)
        case Success(rest) =>
          assert forall k :: 1 <= k < |ops| ==> ops[k] == ops[1..][k - 1];
          Success([op] + rest)
  }

  // `Rule::try_from(&NamedRuleWithOperations)`: an absent list becomes empty.
  function RuleFromNamed(rule: NamedRuleWithOperations): (r: Result<Rule, string>)
    ensures r.Success? <==> rule.operations.None? || ParseOperations(rule.operations.value).Success?
    ensures r.Failure? ==> r.error == "unknown operation"
    ensures r.Success? ==>
              && r.value.apiGroups == rule.apiGroups.GetOr([])
              && r.value.apiVersions == rule.apiVersions.GetOr([])
              && r.value.resources == rule.resources.GetOr([])
              && (rule.operations.Some? ==> r.value.operations == ParseOperations(rule.operations.value).value)
              && (rule.operations.None? ==> r.value.operations == [])
  {
    var operations :=
      match rule.operations
      case Some(ops) => ParseOperations(ops)
      case None => Success([]);
    match operations
    case Failure(e) => Failure(e)
    case Success(ops) =>
      Success(Rule(rule.apiGroups.GetOr([]), rule.apiVersions.GetOr([]), rule.resources.GetOr([]), ops))
  }

  // Writing each operation by its name and converting gives the operations back.
  lemma {:induction false} ParseOperationNames(ops: seq<Operation>)
    ensures ParseOperations(seq(|ops|, k requires 0 <= k < |ops| => OperationName(ops[k]))) == Success(ops)
  {
    var names := seq(|ops|, k requires 0 <= k < |ops| => OperationName(ops[k]));
    forall k | 0 <= k < |ops| ensures ParseOperation(names[k]) == Success(ops[k]) {
      ParseOperationName(ops[k]);
    }
    var r := ParseOperations(names);
    assert r.Success?;
    assert r.value == ops by {
      forall k | 0 <= k < |ops| ensures r.value[k] == ops[k] {
        assert ParseOperation(names[k]) == Success(r.value[k]);
      }
    }
  }

  // A converted rule that left out a list does not validate: the derived
  // length check reports the list that came out empty.
  lemma MissingListsFailValidation(rule: NamedRuleWithOperations)
    requires RuleFromNamed(rule).Success?
    requires rule.apiGroups.None? || rule.resources.None? || rule.operations.None?
    ensures RuleFaults(RuleFromNamed(rule).value) != {}
  {
  }
}
