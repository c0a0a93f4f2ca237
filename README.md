# ec2ctl: the decision logic of an EC2 operator CLI, in Dafny

`ec2ctl` is a small command-line tool over the AWS SDK. It lists EC2 instances, starts and stops them by their `Name` tag, and registers them with or deregisters them from an Elastic Load Balancer. It also reports the health of the instances behind a load balancer. This project models the decisions the tool makes under the SDK calls. The cloud is an in-memory snapshot: a sequence of instances and a map from load-balancer names to load balancers. Each load balancer holds a member set of instance ids and a health feed.

Modules:

- `Fleet` holds the data model: instance states, instances, health entries, load balancers, the mutation calls sent to the provider, and the failures. A failure is either one of the tool's `abort` messages or a nil row slice. It also holds the two name lookups, `find_instance_by_name` and `find_load_balancer_by_name`. Instance lookup takes the first instance whose `Name` tag equals the name. A name carried by several instances is not an error.
- `Colour` holds `status_colorize`, a total map from state to colour with a default case for unknown states. It returns the bare status when colour is off. The module also gives each table cell its string form (`to_s`), which is what `list` sorts by. A nil IP reads as `""`. A painted status is wrapped in the colorize gem's escape sequence.
- `StringOrder` is the order Ruby's `String#<=>` puts strings in. It is proved to be a total order.
- `Listing` is the `list` command. It keeps instances whose Name text matches the pattern, or all of them when the pattern is empty. A missing tag reads as `""`. Regex matching is a parameter. It then picks the sort column: the first of `id`, `name`, `type`, `private`, `public`, `status` that occurs in `--sort`, ignoring case. It sorts by that column's string form and keeps the first `--limit` rows. The default of `--sort` is `name` evaluated in the class body, i.e. the class name `"Ec2ctl::CLI"`. It matches no pattern, so by default nothing is sorted.
- `Health` is the `lb` command. It keeps the health entries whose instance is among the load balancer's members, in feed order.
- `Membership` holds the guards of `add` and `remove`.
- `Config` is `aws_config`. A profile wins over explicit keys. Explicit keys are passed on only as a pair. The region is present exactly when it is set.
- `Commands` holds the class `Cloud`, the mutable stand-in for the provider. Its methods `Start`, `Stop`, `Add` and `Remove` resolve names, check guards and record the calls sent. `Start` and `Stop` set the resolved instance's status to the one the provider reports after the call. `Add` and `Remove` update the member set in place.

Behaviour of `lib/ec2ctl.rb` worth knowing about:

- An ambiguous instance name resolves to the first match. There is no ambiguity error.
- `sort_by!` is not stable. The model proves the rows are sorted and a permutation. It also proves that any two such results have the same key sequence. It claims no stability.
- The health join compares feed entries with the load balancer's own member list, not with the fleet instance list.
- A negative `--limit` makes `rows[0, n]` nil, and the table cannot then be built. The model reports this as the failure `NilRows`.

## Model

| member | source | states |
|---|---|---|
| `Fleet.FindInstanceByName` | lib/ec2ctl.rb:198-203 | Aborts with NoInstance exactly when no instance has the Name tag. Otherwise returns the earliest instance in fleet order that has it. |
| `Fleet.FirstTaggedResolves` | lib/ec2ctl.rb:199 | If instance k carries the name and none before it does, resolution returns instance k. This holds even when later instances carry the same name, so ambiguity is not an error. |
| `Fleet.TaggedAs` | lib/ec2ctl.rb:199 | An instance without a Name tag never matches. One with the tag matches exactly the name the tag holds. |
| `Fleet.FirstTaggedUnique` | lib/ec2ctl.rb:199 | Only one index holds the first instance tagged with a name. |
| `Fleet.AbortMessagesDistinct` | lib/ec2ctl.rb:82-207 | The six abort messages (lines 82, 91, 122, 133, 200 and 207) are pairwise different. |
| `Fleet.FindLoadBalancerByName` | lib/ec2ctl.rb:205-210 | Succeeds exactly when the name is a known load balancer and returns it. Otherwise aborts with NoLoadBalancer. |
| `Colour.StatusColorize` | lib/ec2ctl.rb:183-196 | With colour off the status passes through unchanged. With colour on it is the status name painted with the colour `ColourOf` gives the state, which is the default colour exactly when the state is not one of the six known ones. |
| `Colour.ColourOf` | lib/ec2ctl.rb:186-193 | Each colour names the states that get it: magenta exactly pending and stopping, green exactly running, light blue exactly stopped, yellow exactly shutting down, red exactly terminated, and the default colour exactly the unknown states. |
| `Colour.CellText` | lib/ec2ctl.rb:57 | A string cell reads as itself, nil as `""`, a bare status as its name. A painted text reads as the opening sequence of its colour, the text, then the reset. |
| `Colour.Sgr` | lib/ec2ctl.rb:195 | The opening sequence of a colour is ten characters long, starts with ESC, and carries the colour's two-digit code at positions 4 and 5. |
| `Colour.SharedColourOnlyForTransientStates` | lib/ec2ctl.rb:186-193 | Two different known states share a colour only if they are pending and stopping. |
| `Colour.OptionCell` | lib/ec2ctl.rb:42-43 | A nil IP address reads as the empty string. A present one reads as itself. |
| `StringOrder.LexLeReflexive` | lib/ec2ctl.rb:57 | The string order used by `sort_by` is reflexive. |
| `StringOrder.LexLeTotal` | lib/ec2ctl.rb:57 | Any two strings are comparable. |
| `StringOrder.LexLeAntisymmetric` | lib/ec2ctl.rb:57 | Strings that are each at most the other are equal. |
| `StringOrder.LexLeTransitive` | lib/ec2ctl.rb:57 | The string order is transitive. |
| `StringOrder.LexLeCommonPrefix` | lib/ec2ctl.rb:57 | A prefix shared by two strings does not change their order. |
| `StringOrder.LexLeDifferingPrefix` | lib/ec2ctl.rb:57 | When two strings start with different prefixes of equal length, those prefixes alone decide their order. |
| `Listing.KeyOfCell` | lib/ec2ctl.rb:57 | The sort key `row[c].to_s` of a string cell is the string, of nil `""`, of a bare status its name, and of a painted status the name wrapped in its colour's opening sequence and the reset. |
| `Listing.NameText` | lib/ec2ctl.rb:35 | The Name text is the tag's value, or `""` when the tag is missing. |
| `Listing.Kept` | lib/ec2ctl.rb:35-36 | An empty pattern keeps every instance. Otherwise an instance is kept exactly when its Name tag matches the pattern, and an untagged instance exactly when `""` matches it. |
| `Listing.RowOf` | lib/ec2ctl.rb:38-45 | The row's sort keys are the id, the Name text, the type, the private and the public IP (`""` when nil), and, with colour off, the status name. With colour on, the status cell is the status name painted with the colour `ColourOf` gives the state. |
| `Listing.TaggedAsAgreesWithNameText` | lib/ec2ctl.rb:35 | The `list` reading of the Name tag (`to_s`, so `""` when missing) and the name lookup agree on every non-empty name. An untagged instance reads as `""` in `list` but is never found by the lookup. |
| `Listing.PaintedStatusOrder` | lib/ec2ctl.rb:57 | With colour on, `--sort status` orders two instances of different colours by their colour codes, not by their state names. |
| `Listing.RunningSortsBeforePending` | lib/ec2ctl.rb:57 | With colour on, a running instance sorts strictly before a pending one (code 32 before 35), though `pending` precedes `running` by name. |
| `Listing.Rows` | lib/ec2ctl.rb:34-46 | The collected rows number at most the instances, and exactly the instances when the pattern is empty. |
| `Listing.RowsAppend` | lib/ec2ctl.rb:34-46 | Filtering a concatenated fleet gives the concatenated rows, so the filter keeps fleet order. |
| `Listing.RowsExactlyKept` | lib/ec2ctl.rb:34-46 | A row is listed exactly when it is the row of an instance kept by the pattern test. There are never more rows than instances. |
| `Listing.ListedRowKept` | lib/ec2ctl.rb:34-46 | Every listed row is the row of an instance the pattern test keeps. |
| `Listing.KeptRowListed` | lib/ec2ctl.rb:34-46 | Every instance the pattern test keeps gives a listed row. |
| `Listing.CollectRows` | lib/ec2ctl.rb:32-46 | The loop builds exactly the filtered rows, one per kept instance, in fleet order. |
| `Listing.OccursSpec` | lib/ec2ctl.rb:49-54 | The recursive case-insensitive search holds exactly when the word occurs at some position of the string, ignoring ASCII case. |
| `Listing.FirstMatch` | lib/ec2ctl.rb:48-55 | Returns the index of the first pattern the sort option matches, with no earlier pattern matching. Returns nothing only when no pattern matches. |
| `Listing.SortColumn` | lib/ec2ctl.rb:48-55 | The sort column is the position of the first of `id`, `name`, `type`, `private`, `public`, `status` that occurs in `--sort` ignoring case, with no earlier one occurring. There is no column exactly when none occurs. |
| `Listing.DefaultSortHasNoColumn` | lib/ec2ctl.rb:28 | The default sort value, the class name `Ec2ctl::CLI`, selects no column, so by default rows keep fleet order. |
| `Listing.Insert` | lib/ec2ctl.rb:57 | Inserting a row into rows sorted on a column keeps them sorted. The result is the old rows plus that row, as a multiset. |
| `Listing.SortRows` | lib/ec2ctl.rb:57 | The sorted rows are nondecreasing by the column's string form and are a permutation of the input. |
| `Listing.SortedKeysAreDetermined` | lib/ec2ctl.rb:57 | Any two sorted permutations of the same rows have the same column keys at every position, so instability only reorders rows with equal keys. |
| `Listing.Take` | lib/ec2ctl.rb:58 | Without a limit all rows are kept. A negative limit gives nil. Otherwise the result is the prefix of length min(N, R). |
| `Listing.List` | lib/ec2ctl.rb:31-61 | Fails exactly when the limit is negative. Otherwise the output is the first min(N, R) rows of the filtered rows, arranged by the selected column, which means sorted and a permutation, or unchanged when no column matches. The output is a sub-multiset of the filtered rows. |
| `Health.RowOf` | lib/ec2ctl.rb:148-153 | A row carries the entry's instance id, description and state, and its Name tag as is: nil when the tag is missing, unlike `list`. |
| `Health.Report` | lib/ec2ctl.rb:145-154 | The join gives at most one row per feed entry, and every row belongs to a registered instance. |
| `Health.ReportAppend` | lib/ec2ctl.rb:145-154 | The join distributes over concatenation of the feed, so matched rows keep feed order. |
| `Health.ReportExactlyMembers` | lib/ec2ctl.rb:145-154 | A row is reported exactly when it comes from a feed entry whose instance id is a member. Every reported row belongs to a member. |
| `Health.ReportKeepsMemberFeed` | lib/ec2ctl.rb:145-154 | When every entry belongs to a member, the report is the whole feed, entry for entry. |
| `Health.Lb` | lib/ec2ctl.rb:140-157 | Aborts with NoLoadBalancer exactly when the load balancer is unknown. Otherwise the rows are the members-only join of its health feed. |
| `Health.StaleEntryDropped` | lib/ec2ctl.rb:145-154 | With members {A, B} and a feed for A, C, B, the report is exactly A then B. |
| `Membership.Register` | lib/ec2ctl.rb:122-125 | Aborts with AlreadyRegistered exactly when the instance is a member. Otherwise the members become the old set plus the instance. |
| `Membership.Deregister` | lib/ec2ctl.rb:133-136 | Aborts with NotRegistered exactly when the instance is not a member. Otherwise exactly that instance is removed. |
| `Membership.RegisterTwiceAborts` | lib/ec2ctl.rb:122 | A second identical `add` aborts. |
| `Membership.DeregisterTwiceAborts` | lib/ec2ctl.rb:133 | A second identical `remove` aborts. |
| `Membership.DeregisterUndoesRegister` | lib/ec2ctl.rb:122-136 | `remove` after a successful `add` restores the load balancer. |
| `Membership.RegisterUndoesDeregister` | lib/ec2ctl.rb:122-136 | `add` after a successful `remove` restores the load balancer. |
| `Membership.ExactlyOneGuardPasses` | lib/ec2ctl.rb:122-133 | For any instance and load balancer, exactly one of `add` and `remove` passes its guard. |
| `Config.AwsConfig` | lib/ec2ctl.rb:161-173 | With a profile: a shared-credentials provider and no explicit keys. Without one: explicit keys appear, as a pair, exactly when both are set. The region appears exactly when it is set. |
| `Commands.Guard` | lib/ec2ctl.rb:82-91 | The call is issued exactly from stopped (start) or running (stop). Otherwise the abort is NotStopped or NotRunning. |
| `Commands.GuardsAreExclusive` | lib/ec2ctl.rb:82-91 | No state lets both start and stop through. No state other than stopped and running lets either through. |
| `Commands.Cloud.Transition` | lib/ec2ctl.rb:80-95 | Resolves the name, applies the guard, and sends the call only when the guard passes. Load balancers are unchanged. On an abort the instances are unchanged. After a sent call only the resolved instance changes, and only its status, which becomes the status the provider reports. |
| `Commands.Cloud.Start` | lib/ec2ctl.rb:80-86 | Aborts with NoInstance or NotStopped without sending anything. From stopped it sends exactly the start call for the resolved instance, and only that instance's status changes, to the one the provider reports. |
| `Commands.Cloud.Stop` | lib/ec2ctl.rb:89-95 | Aborts with NoInstance or NotRunning without sending anything. From running it sends exactly the stop call for the resolved instance, and only that instance's status changes, to the one the provider reports. |
| `Commands.Cloud.Add` | lib/ec2ctl.rb:118-126 | Checks the instance, then the load balancer, then membership. On success the load balancer's members gain the instance and one register call is sent. On any abort nothing changes. |
| `Commands.Cloud.Remove` | lib/ec2ctl.rb:129-137 | Checks the instance, then the load balancer, then membership. On success exactly that instance leaves the members and one deregister call is sent. On any abort nothing changes. |
| `Commands.Cloud.AddTwice` | lib/ec2ctl.rb:118-126 | When an `add` succeeds, repeating it aborts with AlreadyRegistered. Afterwards the instances are unchanged, the load balancer holds exactly the one registration of the first call (nothing when it aborted), and only that call was sent. |
| `Commands.Cloud.RemoveTwice` | lib/ec2ctl.rb:129-137 | When a `remove` succeeds, repeating it aborts with NotRegistered. Afterwards the instances are unchanged, the load balancer lacks exactly the one instance the first call removed (nothing changes when it aborted), and only that call was sent. |
| `Commands.StopScenario` | lib/ec2ctl.rb:89-95 | In a fleet where web-1 runs and web-2 is stopped, stopping web-1 sends its stop call and leaves it stopping. Stopping web-1 again and stopping web-2 both abort with NotRunning. Only one call is sent. |

## Left out

- The default region from the EC2 metadata service, with its 3-second timeout (lib/ec2ctl.rb:14-20), is network I/O. The region is an optional input.
- `ssh` (lib/ec2ctl.rb:97-115) is a remote transport. It picks the public IP exactly when `--via-public-ip` is set and the private IP otherwise. The Net::SSH session is not modelled.
- `status` (lib/ec2ctl.rb:63-77) only prints the resolved instance, so only its name lookup is modelled.
- Transition, Start, Stop: the provider moves the instance on its own after accepting the call, and the tool reads the status back after `sleep 2` (lines 85 and 94). The model takes that status as the parameter `reported` and leaves it unconstrained. The wait and the printed line are not modelled.
- Building the EC2 and ELB clients (lib/ec2ctl.rb:175-181) is foreign code. They are replaced by the in-memory `Cloud` and by snapshots passed to `List` and `Lb`.
- Provider errors (network, credentials, throttling) are not modelled. Every provider call succeeds.
- FindLoadBalancerByName, Lb, Add, Remove: `elb.load_balancers[name]` returns a reference without asking the provider, so it is never nil. For an unknown name the tool prints "Load balancer found" and then fails with the provider's LoadBalancerNotFound error at `include?` (lines 122 and 133) or at `instances.health` (line 145). The abort at line 207 is never reached. `NoLoadBalancer` stands for that provider error: the command fails and sends no call either way, but the message differs.
- The table rendering, `puts`/`inspect` diagnostics and the `abort` process exit are presentation. An abort is a `Failure` value, and `AbortMessage` gives its text.
- Ruby regex semantics in `name.match pattern` are not modelled. The model takes a `matches` parameter.
- The `/…/i` patterns of the sort `case` fold ASCII letters only. Unicode case folding is not modelled.
- The escape sequences are those of the colorize gem's default mode and background. The gem is not part of this model.
- `--limit` is an integer. Thor also accepts a fractional number, which Ruby truncates.
- The model's Name-tag filter is exact equality. The EC2 filter's `*`/`?` wildcards are not modelled.
- `load_balancer.instances.include?` compares instance resources. The model compares instance ids.
- `lb` reads the health feed once and re-reads the member list (`instances.any?`) for every feed entry. The model takes all of them from one snapshot, so membership changes during the loop are not modelled.
- A registration does not change the provider-computed health feed.
- `sort_by!` sorts the Ruby array in place with Ruby's own algorithm. `SortRows` is an insertion sort over a value sequence, proved only against the properties Ruby promises: sorted and a permutation.
