/** The survey in `main` (main.py, lines 153-162): probe every domain, count the
    answers with `Counter(...).most_common()`, and keep the versions that were found. */
module Survey {
  import opened Wrappers
  import opened Dict
  import opened Aggregate
  import opened Net
  import opened Probe

  /** `asyncio.gather` over the domains: one result per domain, in the domains' order. */
  function Results(net: Network, domains: seq<string>): seq<Option<string>>
  {
    seq(|domains|, i requires 0 <= i < |domains| => VersionForDomain(net, domains[i]))
  }

  /** The table the survey builds from the domains' answers. */
  lemma SurveyTable(net: Network, domains: seq<string>)
    ensures var table := Table(Results(net, domains));
      && DistinctKeys(table) && NonIncreasing(table)
      && (forall v :: v in Keys(table) <==>
            exists i :: 0 <= i < |domains| && Results(net, domains)[i] == Some(v))
      && (forall i :: 0 <= i < |table| ==>
            table[i].1 == multiset(Results(net, domains))[Some(table[i].0)])
      && Total(table) <= |domains|
      && (Total(table) == |domains| <==>
            forall i :: 0 <= i < |domains| ==> VersionForDomain(net, domains[i]).Some?)
  {
    var results := Results(net, domains);
    TableKeys(results);
    TableCounts(results);
    TableOrder(results);
    TableTotal(results);
    assert forall i :: 0 <= i < |domains| ==> results[i] == VersionForDomain(net, domains[i]);
  }

  /** The `versions` table: each version that some domain reported, once, with the
      number of domains that reported it, most frequent first, ties in the order the
      versions were first reported; the counts add up to the domains that answered. */
  method Collect(net: Network, domains: seq<string>) returns (versions: seq<(string, nat)>)
    ensures versions == Table(Results(net, domains))
    ensures DistinctKeys(versions) && NonIncreasing(versions)
    ensures forall v :: v in Keys(versions) <==>
      exists i :: 0 <= i < |domains| && Results(net, domains)[i] == Some(v)
    ensures forall i :: 0 <= i < |versions| ==>
      versions[i].1 == multiset(Results(net, domains))[Some(versions[i].0)]
    ensures Total(versions) <= |domains|
    ensures Total(versions) == |domains| <==>
      forall i :: 0 <= i < |domains| ==> VersionForDomain(net, domains[i]).Some?
  {
    var results := Results(net, domains);
    var initial := MostCommon(results);
    TallyDistinct(results);
    SortDistinct(Tally(results));
    versions := DropAbsent(initial);
    SurveyTable(net, domains);
  }
}
