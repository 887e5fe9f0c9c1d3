/**
  The TCP proxy's backend list and round-robin counter (proxy.go), and the table of
  proxies that the rolling deploy updates (proxy_backend.go).
 */
module TcpProxies {
  import opened Basics

  type Port = nat

  datatype Backend = Backend(host: string, port: Port)

  const UINT64_MODULUS: nat := 0x1_0000_0000_0000_0000

  /** The list without the first occurrence of b. */
  function RemoveFirst(s: seq<Backend>, b: Backend): seq<Backend> {
    if s == [] then [] else if s[0] == b then s[1..] else [s[0]] + RemoveFirst(s[1..], b)
  }

  lemma {:induction false} RemoveFirstBag(s: seq<Backend>, b: Backend)
    ensures multiset(RemoveFirst(s, b)) == multiset(s) - multiset{b}
  {
    if s != [] {
      assert s == [s[0]] + s[1..];
      if s[0] != b {
        RemoveFirstBag(s[1..], b);
        assert multiset(RemoveFirst(s, b)) == multiset{s[0]} + multiset(RemoveFirst(s[1..], b));
      }
    }
  }

  lemma AppendBag(s: seq<Backend>, b: Backend)
    ensures multiset(s + [b]) == multiset(s) + multiset{b}
  {
  }

  /** Where the scan of removeBackend stops. */
  lemma {:induction false} RemoveFirstAt(s: seq<Backend>, b: Backend, i: nat)
    requires i <= |s| && b !in s[..i] && (i < |s| ==> s[i] == b)
    ensures RemoveFirst(s, b) == if i < |s| then s[..i] + s[i + 1..] else s
  {
    if s != [] && i > 0 {
      assert s[0] in s[..i];
      assert s[1..][..i - 1] == s[..i][1..];
      RemoveFirstAt(s[1..], b, i - 1);
      if i < |s| {
        assert s[1..][..i - 1] + s[1..][i..] == (s[..i] + s[i + 1..])[1..];
      }
    }
  }

  class TcpProxy {
    var backends: seq<Backend>
    var backendIndex: nat

    constructor ()
      ensures backends == [] && backendIndex == 0
    {
      backends, backendIndex := [], 0;
    }

    /** Round-robin pick; the 64-bit counter wraps around. */
    method GetNextBackend() returns (b: Option<Backend>)
      requires backendIndex < UINT64_MODULUS
      modifies this`backendIndex
      ensures backends == [] ==> b == None && backendIndex == old(backendIndex)
      ensures backends != [] ==> b == Some(backends[old(backendIndex) % |backends|])
      ensures backends != [] ==> backendIndex == (old(backendIndex) + 1) % UINT64_MODULUS
    {
      if backends == [] {
        return None;
      }
      var index := backendIndex;
      backendIndex := (backendIndex + 1) % UINT64_MODULUS;
      b := Some(backends[index % |backends|]);
    }

    method AddBackend(host: string, port: Port)
      modifies this`backends
      ensures backends == old(backends) + [Backend(host, port)]
    {
      backends := backends + [Backend(host, port)];
    }

    method RemoveBackend(host: string, port: Port) returns (found: bool)
      modifies this`backends
      ensures found <==> Backend(host, port) in old(backends)
      ensures backends == RemoveFirst(old(backends), Backend(host, port))
    {
      for i := 0 to |backends|
        invariant backends == old(backends) && Backend(host, port) !in backends[..i]
      {
        var b := backends[i];
        if b.host == host && b.port == port {
          RemoveFirstAt(backends, b, i);
          backends := backends[..i] + backends[i + 1..];
          return true;
        }
      }
      RemoveFirstAt(backends, Backend(host, port), |backends|);
      return false;
    }
  }

  /** The backends of every proxy, keyed by proxy port. */
  type Table = map<Port, seq<Backend>>

  /** The table after appending b at proxy p; unchanged when there is no such proxy. */
  function Added(t: Table, p: Port, b: Backend): Table {
    if p in t then t[p := t[p] + [b]] else t
  }

  /** The table after removing the first b at proxy p, if there is one. */
  function Removed(t: Table, p: Port, b: Backend): Table {
    if p in t then t[p := RemoveFirst(t[p], b)] else t
  }

  class ProxyTable {
    var tcpProxies: map<Port, TcpProxy>
    /** What the proxies held after every change so far. */
    ghost var history: seq<Table>

    ghost predicate Valid()
      reads this`tcpProxies
    {
      forall p, q :: p in tcpProxies && q in tcpProxies && p != q ==> tcpProxies[p] != tcpProxies[q]
    }

    ghost function Current(): Table
      reads this`tcpProxies, tcpProxies.Values`backends
    {
      map p | p in tcpProxies :: tcpProxies[p].backends
    }

    /** The effect on the table of changing one proxy's list. */
    twostate lemma OneChanged(proxyPort: Port)
      requires old(Valid()) && tcpProxies == old(tcpProxies) && proxyPort in tcpProxies
      requires forall p :: p in tcpProxies && p != proxyPort ==> tcpProxies[p].backends == old(tcpProxies[p].backends)
      ensures Current() == old(Current())[proxyPort := tcpProxies[proxyPort].backends]
    {
      var after := old(Current())[proxyPort := tcpProxies[proxyPort].backends];
      assert Current().Keys == tcpProxies.Keys == after.Keys;
      forall p | p in tcpProxies ensures Current()[p] == after[p] {
        if p != proxyPort { assert tcpProxies[p].backends == old(tcpProxies[p].backends); }
      }
    }

    /** The table does not change while neither it nor a proxy does. */
    twostate lemma Untouched()
      requires tcpProxies == old(tcpProxies)
      requires forall p :: p in tcpProxies ==> tcpProxies[p].backends == old(tcpProxies[p].backends)
      ensures Current() == old(Current())
    {
      assert Current().Keys == old(Current()).Keys;
      forall p | p in tcpProxies ensures Current()[p] == old(Current())[p] {
        assert tcpProxies[p].backends == old(tcpProxies[p].backends);
      }
    }

    /** addProxyBackend: fails exactly when no proxy listens on the port. */
    method AddBackend(host: string, mappedPort: Port, proxyPort: Port) returns (ok: bool)
      requires Valid()
      modifies this`history, tcpProxies.Values`backends
      ensures ok <==> proxyPort in tcpProxies
      ensures Current() == Added(old(Current()), proxyPort, Backend(host, mappedPort))
      ensures history == old(history) + [Current()]
    {
      ok := proxyPort in tcpProxies;
      if ok {
        var proxy := tcpProxies[proxyPort];
        proxy.AddBackend(host, mappedPort);
        forall p | p in tcpProxies && p != proxyPort ensures tcpProxies[p].backends == old(tcpProxies[p].backends) {
          assert tcpProxies[p] != proxy;
        }
        OneChanged(proxyPort);
      }
      assert Current() == Added(old(Current()), proxyPort, Backend(host, mappedPort));
      history := history + [Current()];
    }

    /** removeProxyBackend: drops the first such backend; reports a missing proxy or backend. */
    method RemoveBackend(host: string, mappedPort: Port, proxyPort: Port) returns (ok: bool)
      requires Valid()
      modifies this`history, tcpProxies.Values`backends
      ensures ok <==> proxyPort in tcpProxies && Backend(host, mappedPort) in old(Current())[proxyPort]
      ensures Current() == Removed(old(Current()), proxyPort, Backend(host, mappedPort))
      ensures history == old(history) + [Current()]
    {
      ok := false;
      if proxyPort in tcpProxies {
        var proxy := tcpProxies[proxyPort];
        ok := proxy.RemoveBackend(host, mappedPort);
        forall p | p in tcpProxies && p != proxyPort ensures tcpProxies[p].backends == old(tcpProxies[p].backends) {
          assert tcpProxies[p] != proxy;
        }
        OneChanged(proxyPort);
      }
      assert Current() == Removed(old(Current()), proxyPort, Backend(host, mappedPort));
      history := history + [Current()];
    }
  }
}
