/**
 * The query sent to the data source (fetchCoExpressions): a fixed prefix,
 * the molecular profile name exactly as given, and a closing double quote.
 * Reading the profile back out of the query is its partner.
 */
module Query {
  import opened Results

  const QueryPrefix: string := "SELECT * from \"expressionService\".\""

  function BuildQuery(profile: string): (q: string)
    ensures |q| == |QueryPrefix| + |profile| + 1
    ensures q[..|QueryPrefix|] == QueryPrefix
    ensures q[|QueryPrefix|..|q| - 1] == profile
    ensures q[|q| - 1] == '"'
  {
    QueryPrefix + profile + "\""
  }

  /** The profile named by a query of that shape. */
  function ProfileOf(q: string): Option<string> {
    if |q| > |QueryPrefix| && q[..|QueryPrefix|] == QueryPrefix && q[|q| - 1] == '"'
    then Some(q[|QueryPrefix|..|q| - 1])
    else None
  }

  /** The profile can be read back from its query, so distinct profiles give distinct queries. */
  lemma QueryRoundTrip(profile: string)
    ensures ProfileOf(BuildQuery(profile)) == Some(profile)
  {
  }

  lemma QueryInjective(p1: string, p2: string)
    ensures BuildQuery(p1) == BuildQuery(p2) <==> p1 == p2
  {
    if BuildQuery(p1) == BuildQuery(p2) {
      QueryRoundTrip(p1);
      QueryRoundTrip(p2);
    }
  }
}
