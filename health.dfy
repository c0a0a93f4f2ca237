/** The `lb` command: the load balancer's health feed, cut down to the
    entries whose instance is among its registered instances. */
module Health {
  import opened Fleet

  /** A table row: Name tag (nil when missing), instance id, description, state. */
  datatype HealthRow = HealthRow(name: Option<string>, instanceId: string, description: string, state: string)

  /** The row of one feed entry. Its name is the raw Name tag, nil when the
      tag is missing (no `to_s` here, unlike `list`). */
  function RowOf(e: HealthEntry): (r: HealthRow)
    ensures r.instanceId == e.instanceId
    ensures r.name == e.nameTag
    ensures r.description == e.description && r.state == e.state
  {
    HealthRow(e.nameTag, e.instanceId, e.description, e.state)
  }

  /** The rows the loop of `lb` collects, in health-feed order: at most one
      per feed entry, and only for registered instances. */
  function Report(feed: seq<HealthEntry>, members: set<string>): (rows: seq<HealthRow>)
    ensures |rows| <= |feed|
    ensures forall i :: 0 <= i < |rows| ==> rows[i].instanceId in members
  {
    if |feed| == 0 then []
    else
      var last := feed[|feed| - 1];
      Report(feed[..|feed| - 1], members) + (if last.instanceId in members then [RowOf(last)] else [])
  }

  /** The join distributes over concatenation of the feed, so it keeps feed order. */
  lemma {:induction false} ReportAppend(a: seq<HealthEntry>, b: seq<HealthEntry>, members: set<string>)
    ensures Report(a + b, members) == Report(a, members) + Report(b, members)
    decreases |b|
  {
    if |b| > 0 {
      var b' := b[..|b| - 1];
      assert (a + b)[..|a + b| - 1] == a + b';
      assert (a + b)[|a + b| - 1] == b[|b| - 1];
      ReportAppend(a, b', members);
      var tail := if b[|b| - 1].instanceId in members then [RowOf(b[|b| - 1])] else [];
      assert Report(a + b, members) == Report(a + b', members) + tail;
    } else {
      assert a + b == a;
    }
  }

  /** Every row belongs to a registered instance, and every entry of a
      registered instance gives a row; stale entries are dropped. */
  lemma {:induction false} ReportExactlyMembers(feed: seq<HealthEntry>, members: set<string>, row: HealthRow)
    ensures row in Report(feed, members) <==>
            exists i :: 0 <= i < |feed| && feed[i].instanceId in members && row == RowOf(feed[i])
    ensures row in Report(feed, members) ==> row.instanceId in members
    ensures |Report(feed, members)| <= |feed|
  {
    if |feed| > 0 {
      var init := feed[..|feed| - 1];
      ReportExactlyMembers(init, members, row);
      assert forall i :: 0 <= i < |init| ==> init[i] == feed[i];
    }
  }

  /** When every entry belongs to a member, the report is the whole feed. */
  lemma {:induction false} ReportKeepsMemberFeed(feed: seq<HealthEntry>, members: set<string>)
    requires forall i :: 0 <= i < |feed| ==> feed[i].instanceId in members
    ensures |Report(feed, members)| == |feed|
    ensures forall i :: 0 <= i < |feed| ==> Report(feed, members)[i] == RowOf(feed[i])
  {
    if |feed| > 0 {
      ReportKeepsMemberFeed(feed[..|feed| - 1], members);
    }
  }

  /** The `lb` command. */
  method Lb(balancers: map<string, Balancer>, elbName: string) returns (r: Result<seq<HealthRow>>)
    ensures r.Err? <==> elbName !in balancers
    ensures r.Err? ==> r.error == NoLoadBalancer
    ensures r.Ok? ==> r.value == Report(balancers[elbName].health, balancers[elbName].members)
  {
    var found := FindLoadBalancerByName(balancers, elbName);
    if found.Err? {
      return Err(found.error);
    }
    var members := found.value.members;
    var feed := found.value.health;
    var rows: seq<HealthRow> := [];
    var i := 0;
    while i < |feed|
      invariant 0 <= i <= |feed|
      invariant rows == Report(feed[..i], members)
    {
      var entry := feed[i];
      assert feed[..i + 1][..i] == feed[..i];
      i := i + 1;
      if entry.instanceId !in members {
        continue;
      }
      rows := rows + [RowOf(entry)];
    }
    assert feed[..i] == feed;
    r := Ok(rows);
  }

  /** Members {A, B} and a feed for A, C, B: two rows, A then B. */
  lemma StaleEntryDropped()
    ensures var a := HealthEntry("i-a", Some("web-a"), "N/A", "InService");
            var b := HealthEntry("i-b", Some("web-b"), "N/A", "InService");
            var c := HealthEntry("i-c", None, "Instance is not registered", "OutOfService");
            Report([a, c, b], {"i-a", "i-b"}) == [RowOf(a), RowOf(b)]
  {
    var a := HealthEntry("i-a", Some("web-a"), "N/A", "InService");
    var b := HealthEntry("i-b", Some("web-b"), "N/A", "InService");
    var c := HealthEntry("i-c", None, "Instance is not registered", "OutOfService");
    var members := {"i-a", "i-b"};
    assert [a, c, b][..2] == [a, c] && [a, c][..1] == [a] && [a][..0] == [];
    assert Report([a], members) == [RowOf(a)];
    assert Report([a, c], members) == [RowOf(a)];
  }
}
