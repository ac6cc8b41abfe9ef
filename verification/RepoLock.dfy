/** The in-memory repository lock: a table of locked names. */
module RepoLock {

  type Table = map<string, bool>

  /** The table after `Lock(repo)`; an absent name is inserted, a present one is refused. */
  function Acquired(t: Table, repo: string): (r: Table)
  {
    if repo in t then t else t[repo := true]
  }

  /** The table after `Unlock(repo)`; only an entry whose value is `true` is deleted. */
  function Released(t: Table, repo: string): (r: Table)
  {
    if repo in t && t[repo] then t - {repo} else t
  }

  /** Unlock undoes a successful Lock, and touches no other name. */
  lemma UnlockUndoesLock(t: Table, repo: string)
    requires repo !in t
    ensures Released(Acquired(t, repo), repo) == t
    ensures forall other :: other != repo ==> (other in Acquired(t, repo) <==> other in t)
  {
  }

  /** A name in the table is refused and the table stays; an entry goes only if its value is true, and no
      other name is affected. */
  lemma TableLaws(t: Table, repo: string, other: string)
    ensures repo in t ==> Acquired(t, repo) == t
    ensures repo in Released(t, repo) <==> repo in t && !t[repo]
    ensures other != repo ==> (other in Released(t, repo) <==> other in t)
    ensures other in t && other in Released(t, repo) ==> Released(t, repo)[other] == t[other]
    ensures other in t ==> Acquired(t, repo)[other] == t[other]
  {
  }

  class InMemoryRepoLock {
    var dataMap: Table
    const timeout: int

    constructor (timeout: int)
      ensures dataMap == map[] && this.timeout == timeout
    {
      this.dataMap := map[];
      this.timeout := timeout;
    }

    /** Acquires the lock for `repo`; fails exactly when it is already taken. */
    method Lock(repo: string) returns (ok: bool)
      modifies this`dataMap
      ensures ok <==> repo !in old(dataMap)
      ensures dataMap == Acquired(old(dataMap), repo)
      ensures repo in dataMap
    {
      if repo !in dataMap {
        dataMap := dataMap[repo := true];
        return true;
      }
      return false;
    }

    /** Releases the lock for `repo`; fails exactly when the name is not in the table. */
    method Unlock(repo: string) returns (ok: bool)
      modifies this`dataMap
      ensures ok <==> repo in old(dataMap)
      ensures dataMap == Released(old(dataMap), repo)
    {
      if repo !in dataMap {
        return false;
      }
      if dataMap[repo] {
        dataMap := dataMap - {repo};
      }
      return true;
    }
  }
}
