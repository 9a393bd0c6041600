/** Route names for general contracts (`GetGeneralContractRoutes` in
    requestengine/routes.go): one route per method of every contract that has
    no keys, built from the contract name, the method name without its
    signature, and the first argument when there is one. */
module Routes {
  import opened Strings
  import opened Config

  /** The method name before its parameter list: `strings.Split(m, "(")[0]`. */
  function MethodName(m: string): (name: string)
    ensures '(' !in name
    ensures StartsWith(m, name)
    ensures |name| == |m| || m[|name|] == '('
  {
    Split(m, '(')[0]
  }

  /** Only keyless contracts produce routes, and indexing `Args[index]`
      panics in the source unless every method has an argument list. */
  predicate RoutesDefined(calls: seq<Contract>) {
    forall c :: c in calls && |c.keys| == 0 ==> |c.args| >= |c.methods|
  }

  function Route(c: Contract, i: nat): (route: string)
    requires i < |c.methods| && i < |c.args|
  {
    var base := c.name + "/" + MethodName(c.methods[i]);
    if |c.args[i]| != 0 then base + "/" + c.args[i][0] else base
  }

  /** Reference definition: the routes of one contract, in method order. */
  function ContractRoutes(c: Contract): (routes: seq<string>)
    requires |c.keys| == 0 ==> |c.args| >= |c.methods|
  {
    if |c.keys| != 0 then []
    else seq(|c.methods|, i requires 0 <= i < |c.methods| => Route(c, i))
  }

  /** Reference definition: the routes of all contracts, in call order. */
  function RoutesOf(calls: seq<Contract>): (routes: seq<string>)
    requires RoutesDefined(calls)
  {
    if |calls| == 0 then [] else ContractRoutes(calls[0]) + RoutesOf(calls[1..])
  }

  /** `GetGeneralContractRoutes`: the outer loop over the contracts; the
      result is the reference list. */
  method GetGeneralContractRoutes(calls: seq<Contract>) returns (routes: seq<string>)
    requires RoutesDefined(calls)
    ensures routes == RoutesOf(calls)
  {
    routes := [];
    var n := 0;
    while n < |calls|
      invariant 0 <= n <= |calls|
      invariant RoutesDefined(calls[..n])
      invariant routes == RoutesOf(calls[..n])
    {
      RoutesOfPrefix(calls, n);
      var added := MethodRoutes(calls[n]);
      routes := routes + added;
      n := n + 1;
    }
    assert calls[..n] == calls;
  }

  /** Extending a prefix of the call list by one contract extends its routes
      by that contract's routes. */
  lemma RoutesOfPrefix(calls: seq<Contract>, n: nat)
    requires RoutesDefined(calls) && n < |calls|
    ensures calls[n] in calls
    ensures RoutesDefined(calls[..n + 1])
    ensures RoutesOf(calls[..n + 1]) == RoutesOf(calls[..n]) + ContractRoutes(calls[n])
  {
    assert calls[..n + 1] == calls[..n] + [calls[n]];
    assert RoutesDefined(calls[..n]) by {
      forall c | c in calls[..n] ensures c in calls { }
    }
    assert RoutesDefined([calls[n]]);
    RoutesOfAppend(calls[..n], [calls[n]]);
    assert RoutesOf([calls[n]]) == ContractRoutes(calls[n]) + RoutesOf([]) by {
      assert [calls[n]][1..] == [];
    }
  }

  /** The inner loop over one contract's methods. */
  method MethodRoutes(c: Contract) returns (added: seq<string>)
    requires |c.keys| == 0 ==> |c.args| >= |c.methods|
    ensures added == ContractRoutes(c)
  {
    added := [];
    var index := 0;
    while index < |c.methods|
      invariant 0 <= index <= |c.methods|
      invariant |c.keys| == 0 ==> added == ContractRoutes(c)[..index]
      invariant |c.keys| != 0 ==> added == []
    {
      if |c.keys| == 0 {
        var route := c.name + "/" + MethodName(c.methods[index]);
        if |c.args[index]| != 0 {
          route := route + "/" + c.args[index][0];
        }
        assert ContractRoutes(c)[..index + 1] == ContractRoutes(c)[..index] + [Route(c, index)];
        added := added + [route];
      }
      index := index + 1;
    }
    assert |c.keys| == 0 ==> ContractRoutes(c)[..index] == ContractRoutes(c);
  }

  /** Routes of concatenated call lists concatenate. */
  lemma {:induction false} RoutesOfAppend(a: seq<Contract>, b: seq<Contract>)
    requires RoutesDefined(a) && RoutesDefined(b)
    ensures RoutesDefined(a + b)
    ensures RoutesOf(a + b) == RoutesOf(a) + RoutesOf(b)
  {
    if |a| == 0 {
      assert a + b == b;
    } else {
      assert (a + b)[1..] == a[1..] + b;
      assert (a + b)[0] == a[0];
      RoutesOfAppend(a[1..], b);
    }
  }

  /** A contract with keys contributes no route; a keyless one contributes
      exactly one route per method, each naming the contract and method. */
  lemma ContractRouteCount(c: Contract)
    requires |c.keys| == 0 ==> |c.args| >= |c.methods|
    ensures |c.keys| != 0 ==> ContractRoutes(c) == []
    ensures |c.keys| == 0 ==> |ContractRoutes(c)| == |c.methods|
    ensures |c.keys| == 0 ==> forall i :: 0 <= i < |c.methods| ==>
              StartsWith(ContractRoutes(c)[i], c.name + "/" + MethodName(c.methods[i]))
  {
    if |c.keys| == 0 {
      forall i | 0 <= i < |c.methods|
        ensures StartsWith(ContractRoutes(c)[i], c.name + "/" + MethodName(c.methods[i]))
      {
        var base := c.name + "/" + MethodName(c.methods[i]);
        assert Route(c, i)[..|base|] == base;
      }
    }
  }

  /** The routes of the configured call list are the FPI routes followed by
      the general routes. */
  lemma ConfiguredRoutes(fpiCalls: seq<Contract>, generalCalls: seq<Contract>)
    requires RoutesDefined(fpiCalls) && RoutesDefined(generalCalls)
    ensures RoutesDefined(ContractCalls(fpiCalls, generalCalls))
    ensures RoutesOf(ContractCalls(fpiCalls, generalCalls)) == RoutesOf(fpiCalls) + RoutesOf(generalCalls)
  {
    RoutesOfAppend(fpiCalls, generalCalls);
  }

  /** The number of routes is the number of methods of the keyless contracts. */
  function KeylessMethodCount(calls: seq<Contract>): nat {
    if |calls| == 0 then 0
    else (if |calls[0].keys| == 0 then |calls[0].methods| else 0) + KeylessMethodCount(calls[1..])
  }

  lemma {:induction false} RoutesCount(calls: seq<Contract>)
    requires RoutesDefined(calls)
    ensures |RoutesOf(calls)| == KeylessMethodCount(calls)
  {
    if |calls| > 0 {
      assert calls[0] in calls;
      ContractRouteCount(calls[0]);
      assert RoutesDefined(calls[1..]) by {
        forall c | c in calls[1..] ensures c in calls { }
      }
      RoutesCount(calls[1..]);
    }
  }
}
