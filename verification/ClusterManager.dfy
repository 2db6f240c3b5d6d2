// The connections to workload clusters and their stop channels
// (internal/cluster/manager.go).
module ClusterManager {
  import opened Wrappers
  import opened Rendering

  /** A Go channel used only to be closed; closing it a second time panics. */
  class StopChan {
    var closed: bool
    ghost const owner: string   // the name of the cluster it was made for

    constructor (ghost owner: string)
      ensures !closed && this.owner == owner
    {
      closed := false;
      this.owner := owner;
    }

    method Close()
      requires !closed
      modifies this
      ensures closed
    {
      closed := true;
    }
  }

  /** What a reconciler reads through a connection. */
  datatype ConnView = ConnView(cluster: Cluster, pods: seq<Pod>, nodes: string -> Option<Node>)

  class ClusterConnection {
    var cluster: Cluster
    var pods: seq<Pod>                       // the store of PodInformer
    const nodes: string -> Option<Node>      // node lookup through K8sClient
    const stopCh: StopChan

    constructor (cluster: Cluster, pods: seq<Pod>, nodes: string -> Option<Node>, stopCh: StopChan)
      ensures this.cluster == cluster && this.pods == pods && this.nodes == nodes && this.stopCh == stopCh
    {
      this.cluster, this.pods := cluster, pods;
      this.nodes, this.stopCh := nodes, stopCh;
    }

    ghost function View(): ConnView
      reads this
    {
      ConnView(cluster, pods, nodes)
    }
  }

  /** The fields whose change forces a new connection. */
  predicate SameTarget(a: ClusterSpec, b: ClusterSpec) {
    a.clusterName == b.clusterName && a.region == b.region && a.assumeRoleARN == b.assumeRoleARN
  }

  type Registries = map<string, Cluster>

  /** What a cluster answers to an attempt to connect: nothing, or its pods and nodes, and whether the pod cache
      syncs. It is up to the environment. */
  datatype Answer = Unreachable | Reachable(pods: seq<Pod>, nodes: string -> Option<Node>, synced: bool)

  /** The attempt succeeds. */
  predicate Connects(a: Answer) {
    a.Reachable? && a.synced
  }

  lemma ConnectsMeans(a: Answer)
    ensures Connects(a) <==> a.Reachable? && a.synced
  {
  }

  /** AddOrUpdateCluster on the registries behind the connections. */
  function AddOrUpdated(m: Registries, c: Cluster, a: Answer): Registries {
    if Reuses(m, c) then m[c.name := c]
    else if c.spec.enabled && a.Reachable? then m[c.name := c]
    else m - {c.name}
  }

  /** There is a connection to the same target already. */
  predicate Reuses(m: Registries, c: Cluster) {
    c.name in m && SameTarget(m[c.name].spec, c.spec)
  }

  lemma Replaced<T>(m: map<string, T>, name: string, x: T)
    ensures m[name := x] == (m - {name})[name := x]
    ensures (m - {name}) - {name} == m - {name} && (m - {name})[name := x] - {name} == m - {name}
    ensures name !in m - {name}
  {
  }

  class Manager {
    var clusters: map<string, ClusterConnection>

    ghost var channels: set<StopChan>   // every stop channel ever made

    ghost var Repr: set<object>

    /** The open channels are exactly those of the connections in the map. */
    ghost predicate Valid()
      reads this, Repr
      ensures Valid() ==> this in Repr
    {
      && this in Repr && channels <= Repr
      && (forall n | n in clusters :: clusters[n] in Repr && clusters[n].stopCh in channels)
      && (forall n | n in clusters :: clusters[n].cluster.name == clusters[n].stopCh.owner == n)
      && (forall n | n in clusters :: !clusters[n].stopCh.closed)
      && (forall ch | ch in channels && !ch.closed :: ch.owner in clusters && clusters[ch.owner].stopCh == ch)
    }

    /** The registry behind each connection. */
    ghost function Specs(): (m: Registries)
      reads this, Repr
      requires Valid()
    {
      map n | n in clusters :: clusters[n].cluster
    }

    /** What can be read through each connection. */
    ghost function Connections(): (m: map<string, ConnView>)
      reads this, Repr
      requires Valid()
    {
      map n | n in clusters :: clusters[n].View()
    }

    /** Channels are only closed, never reopened. */
    twostate predicate OnlyCloses()
      reads this, channels
    {
      old(channels) <= channels && forall ch | ch in old(channels) && old(ch.closed) :: ch.closed
    }

    /** Nothing changes as long as the representation does not. */
    twostate lemma Framed()
      requires old(Valid()) && unchanged(old(Repr))
      ensures Valid() && Repr == old(Repr) && Specs() == old(Specs()) && Connections() == old(Connections())
    {
    }

    constructor ()
      ensures Valid() && fresh(Repr) && clusters == map[] && channels == {}
    {
      clusters, channels := map[], {};
      Repr := {this};
    }

    method StopClusterConnection(conn: ClusterConnection)
      requires !conn.stopCh.closed
      modifies conn.stopCh
      ensures conn.stopCh.closed
    {
      conn.stopCh.Close();
    }

    method RemoveCluster(clusterName: string)
      requires Valid()
      modifies this`clusters, channels
      ensures Valid() && Specs() == old(Specs()) - {clusterName}
      ensures Connections() == old(Connections()) - {clusterName}
      ensures clusters == old(clusters) - {clusterName}
      ensures forall ch | ch in channels ::
        ch.closed <==> old(ch.closed) || (clusterName in old(clusters) && ch == old(clusters[clusterName].stopCh))
    {
      hide Specs, Connections;
      if clusterName in clusters {
        var conn := clusters[clusterName];
        StopClusterConnection(conn);
        clusters := clusters - {clusterName};
      }
      Dropped(clusterName);
    }

    /** Without one of the connections, the others read as before. */
    twostate lemma Dropped(name: string)
      requires old(Valid()) && Valid() && clusters == old(clusters) - {name}
      requires forall n | n in clusters :: unchanged(clusters[n])
      ensures Specs() == old(Specs()) - {name} && Connections() == old(Connections()) - {name}
    {
    }

    /** Builds a connection to a cluster that can be reached; there is none to one that cannot. */
    method CreateClusterConnection(cluster: Cluster, answer: Answer) returns (conn: Option<ClusterConnection>)
      ensures conn.Some? <==> answer.Reachable?
      ensures conn.Some? ==>
        && fresh(conn.value) && fresh(conn.value.stopCh)
        && conn.value.View() == ConnView(cluster, answer.pods, answer.nodes)
        && !conn.value.stopCh.closed && conn.value.stopCh.owner == cluster.name
    {
      if answer.Unreachable? {
        return None;
      }
      var stopCh := new StopChan(cluster.name);
      var c := new ClusterConnection(cluster, answer.pods, answer.nodes, stopCh);
      conn := Some(c);
    }

    /** Lets an existing connection hold the registry as it is now; the connection itself stays. */
    method UpdateReference(existing: ClusterConnection, cluster: Cluster)
      requires Valid() && cluster.name in clusters && clusters[cluster.name] == existing
      modifies existing`cluster
      ensures Valid() && Specs() == old(Specs())[cluster.name := cluster]
      ensures Connections() ==
              old(Connections())[cluster.name := old(Connections()[cluster.name]).(cluster := cluster)]
    {
      hide Specs, Connections;
      existing.cluster := cluster;
      Updated(existing);
    }

    /** With another registry behind one of the connections, all read as before. */
    twostate lemma Updated(conn: ClusterConnection)
      requires old(Valid()) && Valid() && clusters == old(clusters)
      requires conn.cluster.name in clusters && clusters[conn.cluster.name] == conn && conn.pods == old(conn.pods)
      requires forall n | n in clusters && n != conn.cluster.name :: unchanged(clusters[n])
      ensures Specs() == old(Specs())[conn.cluster.name := conn.cluster]
      ensures Connections() ==
              old(Connections())[conn.cluster.name := old(Connections()[conn.cluster.name]).(cluster := conn.cluster)]
    {
    }

    /** Takes a new connection into the map under the name of its cluster. */
    method Keep(conn: ClusterConnection)
      requires Valid() && conn.cluster.name !in clusters
      requires conn !in Repr && conn.stopCh !in Repr
      requires !conn.stopCh.closed && conn.stopCh.owner == conn.cluster.name
      modifies this
      ensures Valid() && Repr == old(Repr) + {conn, conn.stopCh} && channels == old(channels) + {conn.stopCh}
      ensures Specs() == old(Specs())[conn.cluster.name := conn.cluster]
      ensures Connections() == old(Connections())[conn.cluster.name := conn.View()]
    {
      hide Specs, Connections;
      clusters := clusters[conn.cluster.name := conn];
      channels := channels + {conn.stopCh};
      Repr := Repr + {conn, conn.stopCh};
      Added(conn);
    }

    /** With one more connection, the others read as before. */
    twostate lemma Added(conn: ClusterConnection)
      requires old(Valid()) && Valid() && clusters == old(clusters)[conn.cluster.name := conn]
      requires unchanged(conn) && forall n | n in old(clusters) :: unchanged(old(clusters[n]))
      ensures Specs() == old(Specs())[conn.cluster.name := conn.cluster]
      ensures Connections() == old(Connections())[conn.cluster.name := conn.View()]
    {
    }

    /** With a connection to the same target, that one stays and reads what it read. Without one, an enabled
        registry is connected if the cluster can be reached, even if its cache does not sync. It is an error
        exactly when an enabled registry without such a connection cannot be reached or does not sync. */
    method AddOrUpdateCluster(cluster: Cluster, answer: Answer) returns (err: bool)
      requires Valid()
      modifies Repr
      ensures Valid() && fresh(Repr - old(Repr))
      ensures Specs() == AddOrUpdated(old(Specs()), cluster, answer)
      ensures Connections() - {cluster.name} == old(Connections()) - {cluster.name}
      ensures Reuses(old(Specs()), cluster) ==>
                && cluster.name in Connections() && cluster.name in old(Connections())
                && Connections()[cluster.name] == old(Connections())[cluster.name].(cluster := cluster)
      ensures !Reuses(old(Specs()), cluster) ==>
                if cluster.spec.enabled && answer.Reachable?
                then cluster.name in Connections() &&
                     Connections()[cluster.name] == ConnView(cluster, answer.pods, answer.nodes)
                else cluster.name !in Connections()
      ensures err <==>
                !Reuses(old(Specs()), cluster) && cluster.spec.enabled && !(answer.Reachable? && answer.synced)
      ensures OnlyCloses()
    {
      SpecsAt(cluster.name);
      hide Valid, Specs, Connections;
      if cluster.name in clusters {
        var existing := clusters[cluster.name];
        if existing.cluster.spec.clusterName == cluster.spec.clusterName &&
           existing.cluster.spec.region == cluster.spec.region &&
           existing.cluster.spec.assumeRoleARN == cluster.spec.assumeRoleARN {
          InRepr();
          UpdateReference(existing, cluster);
          return false;
        }
      }
      err := Reconnect(cluster, answer);
    }

    /** The part of AddOrUpdateCluster for a cluster without a connection to the same target. */
    method Reconnect(cluster: Cluster, answer: Answer) returns (err: bool)
      requires Valid()
      modifies this, channels
      ensures Valid() && fresh(Repr - old(Repr))
      ensures Specs() ==
        if cluster.spec.enabled && answer.Reachable? then old(Specs())[cluster.name := cluster]
        else old(Specs()) - {cluster.name}
      ensures Connections() - {cluster.name} == old(Connections()) - {cluster.name}
      ensures if cluster.spec.enabled && answer.Reachable?
              then cluster.name in Connections() &&
                   Connections()[cluster.name] == ConnView(cluster, answer.pods, answer.nodes)
              else cluster.name !in Connections()
      ensures OnlyCloses()
      ensures err <==> cluster.spec.enabled && !Connects(answer)
    {
      hide Valid, Specs, Connections;
      ghost var was, read := Specs(), Connections();
      if cluster.name in clusters {
        RemoveCluster(cluster.name);
      } else {
        NoneToRemove(cluster.name);
      }
      Replaced(was, cluster.name, cluster);
      var view := if answer.Reachable? then ConnView(cluster, answer.pods, answer.nodes)
                  else ConnView(cluster, [], _ => None);
      Replaced(read, cluster.name, view);
      if !cluster.spec.enabled {
        return false;
      }
      err := Connect(cluster, answer);
    }

    lemma NoneToRemove(name: string)
      requires Valid() && name !in clusters
      ensures Specs() - {name} == Specs() && Connections() - {name} == Connections()
    {
    }

    lemma InRepr()
      requires Valid()
      ensures this in Repr && channels <= Repr && forall n | n in clusters :: clusters[n] in Repr
    {
    }

    /** Makes a connection where there is none, if the cluster can be reached. */
    method Connect(cluster: Cluster, answer: Answer) returns (err: bool)
      requires Valid() && cluster.name !in clusters
      modifies this
      ensures Valid() && fresh(Repr - old(Repr)) && old(Repr) <= Repr
      ensures Specs() == if answer.Reachable? then old(Specs())[cluster.name := cluster] else old(Specs())
      ensures Connections() ==
        if answer.Reachable? then old(Connections())[cluster.name := ConnView(cluster, answer.pods, answer.nodes)]
        else old(Connections())
      ensures old(channels) <= channels
      ensures err <==> !Connects(answer)
    {
      hide Valid, Specs, Connections;
      InRepr();
      var conn := CreateClusterConnection(cluster, answer);
      if conn.None? {
        return true;
      }
      Keep(conn.value);
      err := !answer.synced;
    }

    lemma SpecsAt(name: string)
      requires Valid()
      ensures name in Specs() <==> name in clusters
      ensures name in Connections() <==> name in clusters
      ensures name in clusters ==> Specs()[name] == clusters[name].cluster
    {
    }

    /** Finds a connection exactly when there is one that can be read under that name; it is the one of
        that cluster, and it has not been stopped. */
    method GetClusterConnection(clusterName: string) returns (conn: Option<ClusterConnection>)
      requires Valid()
      ensures conn.Some? <==> clusterName in Connections()
      ensures conn.Some? ==>
        && clusterName in clusters && clusters[clusterName] == conn.value
        && conn.value.View() == Connections()[clusterName] && conn.value.cluster.name == clusterName
        && !conn.value.stopCh.closed
    {
      conn := if clusterName in clusters then Some(clusters[clusterName]) else None;
    }

    /** The connections, in any order. */
    method GetAllConnections() returns (connections: seq<ClusterConnection>)
      requires Valid()
      ensures forall c | c in connections :: c.cluster.name in clusters && clusters[c.cluster.name] == c
      ensures forall n | n in clusters :: clusters[n] in connections
      ensures |connections| == |clusters|
    {
      connections := [];
      var todo := clusters.Keys;
      while todo != {}
        invariant todo <= clusters.Keys
        invariant forall c | c in connections :: c.cluster.name in clusters && clusters[c.cluster.name] == c
        invariant forall n | n in clusters && n !in todo :: clusters[n] in connections
        invariant |connections| + |todo| == |clusters|
      {
        var name :| name in todo;
        todo := todo - {name};
        connections := connections + [clusters[name]];
      }
    }

    method Shutdown()
      requires Valid()
      modifies Repr
      ensures Valid() && clusters == map[] && channels == old(channels)
      ensures forall ch | ch in channels :: ch.closed
    {
      var todo := clusters.Keys;
      while todo != {}
        invariant Repr == old(Repr) && channels == old(channels) && clusters == old(clusters)
        invariant todo <= clusters.Keys
        invariant forall n | n in clusters :: unchanged(clusters[n])
        invariant forall n | n in clusters :: clusters[n].stopCh.closed <==> n !in todo
        invariant forall ch | ch in channels && !ch.closed :: ch.owner in clusters && clusters[ch.owner].stopCh == ch
      {
        var name :| name in todo;
        StopClusterConnection(clusters[name]);
        todo := todo - {name};
      }
      clusters := map[];
    }
  }
}
