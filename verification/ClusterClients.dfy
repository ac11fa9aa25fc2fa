/** Lazy creation of cluster clients with a double check under the write lock. */
module ClusterClients {
  import opened Wrappers

  type Client = int

  datatype Health = Unknown | Healthy | Unhealthy

  datatype Error = NotFound | CreationFailed(message: string)

  class ClusterEntry {
    var clients: Option<Client>
    var status: Health

    constructor ()
      ensures clients == None && status == Unknown
    {
      clients, status := None, Unknown;
    }
  }

  class Manager {
    const clusters: map<string, ClusterEntry>

    constructor (clusters: map<string, ClusterEntry>)
      ensures this.clusters == clusters
    {
      this.clusters := clusters;
    }

    /** attempt is what creating the clients would give; it matters only if they are not there. */
    method GetOrCreateClients(name: string, attempt: Result<Client, string>) returns (r: Result<Client, Error>)
      modifies if name in clusters then {clusters[name]} else {}
      ensures name !in clusters ==> r == Failure(NotFound)
      ensures name in clusters ==>
        match old(clusters[name].clients)
        case Some(client) => r == Success(client) && unchanged(clusters[name])
        case None =>
          match attempt
          case Success(client) =>
            r == Success(client) && clusters[name].clients == Some(client) && clusters[name].status == Healthy
          case Failure(message) =>
            && r == Failure(CreationFailed(message))
            && clusters[name].clients == None && clusters[name].status == Unhealthy
    {
      if name !in clusters {
        return Failure(NotFound);
      }
      var entry := clusters[name];
      if entry.clients.Some? {
        return Success(entry.clients.value);
      }
      if attempt.Failure? {
        entry.status := Unhealthy;
        return Failure(CreationFailed(attempt.error));
      }
      entry.clients := Some(attempt.value);
      entry.status := Healthy;
      return Success(attempt.value);
    }
  }
}
