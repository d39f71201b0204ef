# scheduler-job-export analysis core in Dafny

scheduler-job-export exports HPC scheduler accounting data (SLURM, UGE/SGE,
PBS, LSF, HTCondor) and analyses it with a set of one-shot Python report
scripts. This project models the deterministic logic under the pandas calls
and the printing in eighteen of those scripts, and proves what the reports
rely on.

- Jobs are sequences of records. Timestamps are integer seconds (real
  seconds in `TimeWeighted`). CPU and memory amounts are naturals. Ratios,
  percentages and prices are reals.
- A missing CSV cell, a NaT or a NaN is `None`. A Python exception that ends
  a script is an `Err`.
- pandas and numpy statistics (mean of a column where it is not the point,
  median, quantile, std, corr, autocorr) are inputs to the model.
- Hour of day, weekday, day of month and month are given integers.

One module per script, plus `Common` for what they share (options and
results, sums, ASCII string helpers, per-key tables, the "running at t" test
`start <= t < end`).

| module | script | what it covers |
|---|---|---|
| `Nodelist` | analyze_utilization.py, analyze_split_utilization.py, analyze_packing.py | SLURM hostlist expansion, which the three scripts carry as identical copies |
| `ClusterUtilization` | analyze_utilization.py | node inventory rebuilt from job records, node types and ids, the CPUs-per-node guess |
| `TrueUtilization` | analyze_true_utilization.py | start/end event sweep with running CPU and memory totals, capacity lookup |
| `TimeWeighted` | analyze_true_utilization.py | time-weighted average utilisation over the series, with real-second timestamps |
| `ConcurrentLoad` | analyze_concurrent_load.py | hourly concurrency samples, peak-to-average, load buckets, burst hours above p95, annual projection |
| `CloudBursting` | analyze_slurm_cloud_bursting.py | capacity in whole nodes, per-scenario burst accumulation and cost |
| `SplitUtilization` | analyze_split_utilization.py | compute and GPU partitions: utilisation, core waste, buckets, memory groups |
| `Packing` | analyze_packing.py | core-utilisation buckets, throughput/capacity verdict, provisioning and consolidation |
| `ClusterConfig` | standardize_cluster_config.py | scheduler detection, output naming, per-scheduler row conversion, first row per HTCondor machine |
| `ShortJobs` | analyze_short_jobs_and_arrays.py | runtime threshold table, greedy job-array and workflow-chain detection, scheduler overhead |
| `CrossUserImpacts` | analyze_cross_user_impacts.py | impact scoring, before/after windows, abandonment trigger, severity, hour blocks, user patterns |
| `Recovery` | analyze_cross_user_impacts_with_recovery.py | the 30-minute recovery search with latched per-metric flags |
| `BaselineBehavior` | analyze_baseline_behavior.py | per-user and per-group baselines, burstiness, CV, regularity, system rates |
| `JobEfficiency` | analyze_job_resource_efficiency.py | efficiency column precedence, clipping, waste, per-key summaries |
| `QueueWait` | analyze_queue_wait_times.py | wait filter, wait and CPU bins, week of month, per-user threshold counts, calendar tables |
| `MockAnalysis` | analyze_mock_user_group_data.py | peak attribution, cloud strategy rule, growth trend rule, scores |
| `MockGenerator` | generate_mock_user_group_data.py | user table, deterministic job factors, derived costs |
| `AwsMigration` | analyze_full_aws_migration.py | spot/on-demand mix per duration, GPU instance choice, fixed cost terms, totals |
| `Abandonment` | analyze_submission_abandonment.py | hourly queue/submission series, optimal lag, look-ups after extreme queues |
| `AbandonmentEvents` | analyze_submission_abandonment_events.py | per-submission queue, gaps, rolling rate, queue bins, verdict |

Where a script builds a result with a loop, the model has a method with the
same loop, proved equal to a specification function; the properties are
proved about that function.

## Model

| member | source | states |
|---|---|---|
| Common.ToLower | standardize_cluster_config.py:32-40 | lower-casing keeps the length and lower-cases each character by the ASCII rules |
| Common.ToLowerIdempotent | standardize_cluster_config.py:68-75 | lower-casing a lower-cased text changes nothing |
| Common.BeforeFirst | standardize_cluster_config.py:68 | `split(sep)[0]` is the longest prefix without the separator, followed in the text by the separator or by nothing |
| Common.NatToStringRoundTrip | generate_mock_user_group_data.py:120 | writing a number in decimal and reading it back gives the number, with no leading zero |
| Common.ZeroPadValue | generate_mock_user_group_data.py:120 | zero-padded formatting reaches the requested width and keeps the value |
| Common.Clip | analyze_cross_user_impacts.py:113-115 | `clip(lo, hi)` lands in [lo, hi] and leaves values already inside unchanged |
| Common.BucketRowsFacts | analyze_baseline_behavior.py:64-84 | the per-key table is in ascending key order, each row holds its key's positive count, and every key that occurs has a row |
| Common.NonEmptyBuckets | analyze_baseline_behavior.py:64-67 | the loop over the key range builds exactly that table |
| Nodelist.Split | analyze_utilization.py:30 | `str.split` always yields at least one piece and no piece holds the separator |
| Nodelist.SplitJoin | analyze_utilization.py:30 | splitting loses nothing: joining the pieces with the separator gives the text back |
| Nodelist.SplitOnce | analyze_utilization.py:32 | `'a-b'.split('-')` is exactly `[a, b]` when neither side holds a dash |
| Nodelist.WordRun | analyze_utilization.py:23 | the prefix group `(\w+)` is the longest leading run of word characters |
| Nodelist.RangeRun | analyze_utilization.py:23 | the body group `([\d,\-]+)` is the longest leading run of digits, commas and dashes |
| Nodelist.MatchRange | analyze_utilization.py:23-24 | a match gives a non-empty prefix and a non-empty body made only of range characters |
| Nodelist.MatchBracketGroup | analyze_utilization.py:23-28 | `prefix[body]tail` matches with exactly that prefix and body |
| Nodelist.RangeNames | analyze_utilization.py:33 | `range(first, last + 1)` gives last − first + 1 names, the k-th being prefix followed by first + k, and none when first > last |
| Nodelist.ExpandEntriesSnoc | analyze_utilization.py:30-35 | each further entry appends its own names after those of the earlier entries |
| Nodelist.FailureIsFinal | analyze_utilization.py:32 | once an entry fails `int()` the whole expansion fails with that error |
| Nodelist.ExpandNodelist | analyze_utilization.py:12-40 | a missing or empty nodelist gives no nodes, text without a bracket group gives itself, and otherwise the entries' names in order |
| Nodelist.ExpandGroup | analyze_utilization.py:30-35 | the loop over the comma-separated entries computes the entry expansion, stopping at the first failing entry |
| Nodelist.ExpandRange | analyze_utilization.py:33 | the range comprehension, written as a loop, yields the range's names |
| Nodelist.PlainNameIsSingleton | analyze_utilization.py:36-38 | a name with no bracket group is a one-node list holding the name itself |
| Nodelist.RangeGroupExpansion | analyze_utilization.py:31-33 | `prefix[a-b]` expands to prefix·a through prefix·b |
| Nodelist.SingleGroupExpansion | analyze_utilization.py:34-35 | `prefix[d]` expands to the one node prefix·d |
| Nodelist.OneEntryGroup | analyze_utilization.py:26-35 | a bracket group holding one entry expands to that entry's names |
| Nodelist.ParseRangeEntry | analyze_utilization.py:31-32 | `a-b` with two digit strings parses to the range of their values |
| Nodelist.TwoRangesAndSingle | analyze_utilization.py:26-35 | a group of two ranges and a single number expands to the first range, then the second, then the single node |
| Nodelist.ThreeEntryGroup | analyze_utilization.py:26-35 | a bracket group of three entries expands to their names in order |
| Nodelist.DocumentedExample | analyze_utilization.py:15 | the docstring's example `node[1935-1937,1939-1940,1950]` gives the six documented names |
| ClusterUtilization.KeptIsHourWindow | analyze_utilization.py:63-66 | the run-time filter on whole seconds keeps exactly the jobs whose run time in hours lies in [0, 100000) |
| ClusterUtilization.OccurrencesAppend | analyze_utilization.py:80-83 | counting a node over two runs of names adds the two counts |
| ClusterUtilization.OccurrencesPositiveIffListed | analyze_utilization.py:81-83 | a node has a positive job count exactly when some expansion lists it |
| ClusterUtilization.Expansions | analyze_utilization.py:80 | the scan expands each job's nodelist in job order |
| ClusterUtilization.GatherFailureIsFinal | analyze_utilization.py:77-80 | once a nodelist fails to expand the scan ends with that error, whatever follows |
| ClusterUtilization.TallyNodes | analyze_utilization.py:74-83 | the scan fails exactly when some nodelist fails to expand; otherwise `all_nodes` is the set of expanded names, the count map has exactly those keys, and each count is how often the name was listed |
| ClusterUtilization.GatherStep | analyze_utilization.py:77-80 | a successful expansion appends its names to those gathered so far; a failing one is the scan's result |
| ClusterUtilization.CountNodes | analyze_utilization.py:81-83 | the inner loop adds each listed node to the set and raises its count by one |
| ClusterUtilization.CountsArePositive | analyze_utilization.py:81-83 | a node's count is positive exactly when it was listed by some job |
| ClusterUtilization.CountsAddAcrossJobs | analyze_utilization.py:77-83 | scanning two batches of jobs in turn lists both batches' names, so the counts add up |
| ClusterUtilization.AllNamesOfOne | analyze_utilization.py:80 | one job's scan lists exactly its nodelist's expansion |
| ClusterUtilization.ListedTwiceCountsTwice | analyze_utilization.py:81-83 | a job whose nodelist names one node twice (`p[d,d]`) counts that node twice: counts are per listing, not per job |
| ClusterUtilization.LetterRun | analyze_utilization.py:91 | `[a-zA-Z]+` takes the longest leading run of ASCII letters |
| ClusterUtilization.NodeType | analyze_utilization.py:88-94 | a node has a type exactly when its name starts with a letter, and the type is its leading letters |
| ClusterUtilization.TrailingDigits | analyze_utilization.py:105 | `(\d+)$` takes the longest trailing run of digits |
| ClusterUtilization.NodeId | analyze_utilization.py:103-107 | a node has an id exactly when its name ends in a digit |
| ClusterUtilization.NameRoundTrip | analyze_utilization.py:88-107 | a name built as letters plus number reads back as that type and that id |
| ClusterUtilization.RangeNamesHaveTypeAndId | analyze_utilization.py:103-107 | every name of an expanded range has the prefix as type and an id within the range |
| ClusterUtilization.NodeTypes | analyze_utilization.py:88-94 | every typed node lies in its type's group, every group is non-empty, and a group holds exactly the nodes of that type |
| ClusterUtilization.MaxCpusSeen | analyze_utilization.py:117-131 | the most CPUs any single-node job of that type requested: one such job has it, none exceeds it, and it is absent when no such job ran |
| ClusterUtilization.LikelyConfig | analyze_utilization.py:137-144 | the estimate is the smallest common configuration that holds the observed maximum, or the maximum itself above 128 CPUs |
| TrueUtilization.LoadJobs | analyze_true_utilization.py:42-46 | keeps exactly the rows with both times present and start before end, with defaults filled in, and never more rows than the input |
| TrueUtilization.RanRowsMultiset | analyze_true_utilization.py:42-46 | the rows that ran are every input row with both times present and start before end, as often as the input holds it, and no other row |
| TrueUtilization.LoadJobsCleansRanRows | analyze_true_utilization.py:42-46 | the loaded jobs are those rows in input order, one job per row, with cpus and nodes defaulted to 1 and memory to 0 |
| TrueUtilization.FirstPresentFrom | analyze_true_utilization.py:64-78 | the chosen column name is the first candidate, in priority order, that the table has; None only when it has none of them |
| TrueUtilization.SumFirstPresent | analyze_true_utilization.py:66-78 | the capacity total is the column sum of the first present candidate column, and 0 when no candidate column exists |
| TrueUtilization.LoadClusterConfig | analyze_true_utilization.py:52-94 | capacity exists exactly when the config was readable; nodes are its row count and cpus/memory the sums of the first present cpu and memory columns |
| TrueUtilization.PriorityOrderWins | analyze_true_utilization.py:66-70 | a config holding both 'cpus' and 'slots' uses 'cpus' |
| TrueUtilization.PickedColumnIsFirst | analyze_true_utilization.py:66-78 | a later candidate column is summed only when every earlier candidate is missing |
| TrueUtilization.EventsOfShape | analyze_true_utilization.py:103-120 | every job gives one start event then one end event, in job order, so there are exactly twice as many events as jobs |
| TrueUtilization.EventsOfMember | analyze_true_utilization.py:103-120 | every event belongs to a job and is that job's start or end |
| TrueUtilization.EventsOfDistinct | analyze_true_utilization.py:103-120 | no two positions of the built event list hold the same event |
| TrueUtilization.EventsOfOnce | analyze_true_utilization.py:103-120 | no event appears twice in the built list |
| TrueUtilization.BuildEvents | analyze_true_utilization.py:103-120 | the event loop yields the start and end event of job j at positions 2j and 2j+1 |
| TrueUtilization.RunningLoadStep | analyze_true_utilization.py:137-147 | handling one event of job m changes only job m's share of the running total |
| TrueUtilization.RunningLoadCovers | analyze_true_utilization.py:137-147 | a job that has started and not ended contributes its whole amount to the running total |
| TrueUtilization.RunningLoadDrained | analyze_true_utilization.py:137-147 | once every end event has been handled the running total is zero |
| TrueUtilization.SortedEventListFacts | analyze_true_utilization.py:123-124 | a time-sorted permutation of the built events has 2n distinct events and holds every job's start and end |
| TrueUtilization.SweepStep | analyze_true_utilization.py:137-147 | a start adds the job's amount; an end always finds at least its own amount running and subtracts it, so the max(0, ...) clamp never fires |
| TrueUtilization.Sweep | analyze_true_utilization.py:130-167 | one time-series point per event, each point carrying the resources of the jobs running after that event; the last point is back at zero |
| TrueUtilization.SweepEvent | analyze_true_utilization.py:137-167 | one event of the sweep: the new totals are the running load after that event, equal to the unclamped sum, and the point records them with their percentages |
| TrueUtilization.Percentages | analyze_true_utilization.py:150-158 | utilisation is allocation over capacity times 100, and 0 when there is no config or the capacity is 0 |
| TrueUtilization.SortedEventListLength | analyze_true_utilization.py:123-124 | sorting keeps the 2n events |
| TrueUtilization.NothingRunningYet | analyze_true_utilization.py:132-133 | before the first event nothing is allocated |
| TrueUtilization.SweepDrained | analyze_true_utilization.py:135-147 | after the whole sorted event list nothing is allocated |
| TrueUtilization.UtilPctBounds | analyze_true_utilization.py:153-158 | an allocation within capacity gives a percentage in [0, 100], and exactly 100 at full capacity |
| TimeWeighted.Gaps | analyze_true_utilization.py:272-276 | `diff()` without its first row has one gap fewer than there are points |
| TimeWeighted.GapsTelescope | analyze_true_utilization.py:278 | the summed time deltas equal the span from the first to the last point |
| TimeWeighted.TimeWeightedDefined | analyze_true_utilization.py:270-282 | the time-weighted average exists exactly when there are two points or more and the last is later than the first |
| TimeWeighted.WeightedSumBounds | analyze_true_utilization.py:278-281 | for points in time order with every utilisation in [lo, hi], the delta-weighted sum lies between lo and hi times the span |
| TimeWeighted.TimeWeightedAverageBounds | analyze_true_utilization.py:270-282 | for points in time order the time-weighted average lies between the smallest and the largest utilisation |
| ConcurrentLoad.LoadSplitsByNodeType | analyze_concurrent_load.py:79-81 | at every tick the compute and GPU CPU series add up to the overall series |
| ConcurrentLoad.RunningJobCounted | analyze_concurrent_load.py:77-79 | a job with start <= t < end adds its requested CPUs to the tick's load and counts as a running job |
| ConcurrentLoad.SampleHourly | analyze_concurrent_load.py:71-93 | sample k is taken at start + k hours, every sample is at or before the end, the next hour would pass it, and each sample's compute and GPU parts add up |
| ConcurrentLoad.Window | analyze_concurrent_load.py:54-55 | the sampling window runs from the earliest start to the latest end, each of which some job has, and covers every job; there is none without jobs |
| ConcurrentLoad.MaxOf | analyze_concurrent_load.py:134 | the series maximum bounds every sample and is one of them |
| ConcurrentLoad.SumAtMostCountTimesMax | analyze_concurrent_load.py:134 | the series total never exceeds its length times its maximum |
| ConcurrentLoad.PeakToAverageAtLeastOne | analyze_concurrent_load.py:134 | the peak-to-average ratio, when defined, is at least 1 |
| ConcurrentLoad.BucketCounts | analyze_concurrent_load.py:153-169 | one count per load bucket, each the number of samples in that half-open range, and together they count every sample below 100000 |
| ConcurrentLoad.CountInRangeSplit | analyze_concurrent_load.py:165-166 | adjacent half-open ranges count disjoint sets of samples |
| ConcurrentLoad.BucketsDisjoint | analyze_concurrent_load.py:153-162 | no sample lies in two buckets, and a sample of 100000 CPUs or more lies in none |
| ConcurrentLoad.AnnualProjectionCoversSample | analyze_concurrent_load.py:186-194 | the annual projection is the sampled total when at least 90% of a year was sampled, and otherwise scales it up, never below the sampled total |
| ConcurrentLoad.BurstHoursIsExcess | analyze_concurrent_load.py:269-271 | the burst formula (sum above p95 minus count above times p95) equals the total excess over p95, so it is never negative |
| ConcurrentLoad.HybridWithoutBurst | analyze_concurrent_load.py:269-283 | when no sample exceeds p95 nothing is bought in the cloud, and the savings are the share of the cluster that p95 does not need |
| ConcurrentLoad.NoneAboveMeansNoSum | analyze_concurrent_load.py:270 | with no sample above the capacity the sum above it is zero |
| CloudBursting.SampleHourly | analyze_slurm_cloud_bursting.py:78-96 | hourly ticks from the start date up to and including the end date, each giving that hour's compute and GPU load |
| CloudBursting.Ceil | analyze_slurm_cloud_bursting.py:145-146 | `np.ceil` gives the least integer not below its argument |
| CloudBursting.NodesCoverCapacity | analyze_slurm_cloud_bursting.py:145-149 | the whole nodes bought cover the capacity, and one node fewer would not |
| CloudBursting.NodesWithinCluster | analyze_slurm_cloud_bursting.py:189-198 | a capacity within today's cluster needs at most its 330 compute and 105 GPU nodes, so the nodes to remove are never negative |
| CloudBursting.ExcessAntitone | analyze_slurm_cloud_bursting.py:159-165 | raising the on-prem capacity never increases the burst CPU-hours or the number of bursts |
| CloudBursting.ExcessZeroIffNoneOver | analyze_slurm_cloud_bursting.py:159-165 | the burst is zero exactly when no sample exceeds the capacity |
| CloudBursting.ScenarioBurst | analyze_slurm_cloud_bursting.py:155-165 | the scenario loop's compute and GPU burst hours are the excesses over each capacity, and burst_count counts compute and GPU overruns separately |
| CloudBursting.ScenarioPctCanExceedHundred | analyze_slurm_cloud_bursting.py:159-167 | a single tick with both types over capacity counts twice, so the scenario table can report 200% of the time bursting |
| CloudBursting.CountOverAtMostLength | analyze_slurm_cloud_bursting.py:159-165 | each resource type bursts at most once per tick |
| CloudBursting.RecommendedBurst | analyze_slurm_cloud_bursting.py:201-217 | the recommended sizing's burst hours are the same excesses, one hour-burst per tick, and hours_bursting counts the ticks with a positive burst |
| CloudBursting.TicksOverBounds | analyze_slurm_cloud_bursting.py:205-217 | counting bursting ticks once is at most the number of ticks, at most the per-type count, and at least the compute count |
| CloudBursting.ScenarioCostsFacts | analyze_slurm_cloud_bursting.py:151-177 | today's 435 nodes with no burst cost exactly today's budget and save nothing; savings and total add up to the budget; more burst hours never raise the savings |
| SplitUtilization.Capacity | analyze_split_utilization.py:121 | a partition's capacity is its node count times its CPUs per node, and is positive |
| SplitUtilization.OfKind | analyze_split_utilization.py:73-77 | each partition holds exactly the jobs whose node type is that partition's |
| SplitUtilization.PartitionIsExact | analyze_split_utilization.py:73-77 | every job lands in exactly one of the compute and GPU partitions |
| SplitUtilization.MinStart | analyze_split_utilization.py:124 | the period starts no later than any job in the partition |
| SplitUtilization.MaxEnd | analyze_split_utilization.py:125 | the period ends no earlier than any job in the partition |
| SplitUtilization.PeriodEndsAreJobs | analyze_split_utilization.py:124-125 | the earliest start and the latest end belong to actual jobs |
| SplitUtilization.Utilization | analyze_split_utilization.py:113-132 | a partition has a utilisation exactly when it has jobs and a period of positive length |
| SplitUtilization.CpuHoursWithinPeriod | analyze_split_utilization.py:129-131 | jobs inside a period burn no more CPU-hours than their requested CPUs over the whole period |
| SplitUtilization.UtilizationAtMostRequestShare | analyze_split_utilization.py:129-132 | the utilisation is non-negative and at most the partition's requested CPUs as a share of its capacity |
| SplitUtilization.UsedAndWastedMakeTheNode | analyze_split_utilization.py:161-164 | a single-node job's core utilisation and its wasted cores make up the whole node |
| SplitUtilization.WastedIsCapacityMinusUsed | analyze_split_utilization.py:172-174 | wasted core-hours are the node-hours' cores minus the CPU-hours used |
| SplitUtilization.WasteIsComplementOfUse | analyze_split_utilization.py:172-175 | the core waste percentage is 100 minus the CPU-hours as a share of the node-hours' cores |
| SplitUtilization.UtilBucket | analyze_split_utilization.py:182-186 | every percentage is counted in one of the five rows |
| SplitUtilization.BucketsCoverExactlyOnce | analyze_split_utilization.py:182-186 | the rows <10, 10-25, 25-50, 50-75 and 75+ cover every percentage exactly once |
| SplitUtilization.BucketCountsAddUp | analyze_split_utilization.py:209-213 | the five row counts add up to the number of jobs |
| SplitUtilization.MemoryGroupsComplementary | analyze_split_utilization.py:189-190 | a present memory request is either "all memory" or specific, never both; a missing one is in neither group |
| SplitUtilization.MemUtilizationThreshold | analyze_split_utilization.py:197-198 | a request is at or above a share of the node's memory exactly when it asks for that share of the node's megabytes |
| SplitUtilization.MonthUtilizationFacts | analyze_split_utilization.py:220-228 | a month with no time inside the period reads 0%, a month that fills every CPU for every hour reads 100%, and no month reads below 0% |
| Packing.TotalCpus | analyze_packing.py:17 | the cluster's CPUs are the GPU nodes' cores plus the compute nodes' cores |
| Packing.TotalNodes | analyze_packing.py:280 | the cluster's nodes are the GPU nodes plus the compute nodes |
| Packing.NodeCpusOf | analyze_packing.py:69-70 | a node has 128 cores exactly when it is a GPU node, and 192 otherwise |
| Packing.CoreBucket | analyze_packing.py:83-86 | a core utilisation is counted in at most one of the four rows, and in the row whose range holds it |
| Packing.CoreBucketsMissOnlyNinety | analyze_packing.py:83-86 | the rows <10, 10-50, 50-90 and >90 never overlap, and exactly 90% is the one value in none of them |
| Packing.NinetyIsUnreachable | analyze_packing.py:70-78 | a whole number of CPUs never fills exactly 90% of a 128- or 192-core node, so the gap at 90% loses no job |
| Packing.CoreBucketCountsAddUp | analyze_packing.py:83-86 | the four row counts add up to the number of single-node jobs |
| Packing.FullNodeIsFullUtilization | analyze_packing.py:89-90 | a job counts as a full-node allocation exactly when it uses at least 100% of its node's cores |
| Packing.SmallJobsAreInFirstRow | analyze_packing.py:145 | a job of at most 4 CPUs uses under 10% of any node, and at most 3.125% of one |
| Packing.WastePctUndercountsGpuNodes | analyze_packing.py:161 | the capacity-wasted line as written reports 127/192 for a one-core hour on a 128-core GPU node, where 127/128 of that node was idle |
| Packing.WastedIsCapacityMinusUsed | analyze_packing.py:153-155 | wasted core-hours are the held nodes' core-hours minus the CPU-hours asked for |
| Packing.WasteIsComplementOfUse | analyze_packing.py:153-161 | the corrected waste percentage is 100 minus the CPU-hours as a share of the held nodes' core-hours |
| Packing.ValidQueueInSeconds | analyze_packing.py:181-182 | the queue-time filter in minutes keeps exactly the waits of 0 up to 60,000,000 seconds |
| Packing.ThroughputScore | analyze_packing.py:194-205 | the throughput score adds 2 per passing signal and 1 for the fixed low utilisation, so it is odd and between 1 and 7 |
| Packing.CapacityScore | analyze_packing.py:207-212 | the capacity score adds 2 per passing signal; the utilisation test can never pass, so it is even and at most 4, not the printed 6 |
| Packing.VerdictNeverTies | analyze_packing.py:218-224 | the two scores never tie, a capacity verdict means the capacity score is strictly higher, and a median queue under 5 minutes always gives a throughput verdict |
| Packing.ProvisioningMeaning | analyze_packing.py:244-275 | what each status says about utilisation and median queue; with no valid queue time (NaN) the status is always "appropriate" |
| Packing.ProvisioningAtObservedUtilization | analyze_packing.py:233-275 | at the stated 12.79% the status depends only on the median queue, and is never under-provisioned |
| Packing.Truncate | analyze_packing.py:280-281 | `int()` truncates toward zero on both signs |
| Packing.ConsolidatableNodes | analyze_packing.py:251 | the over-provisioned branch suggests consolidating 130 nodes |
| Packing.ReductionAsWrittenIsNegative | analyze_packing.py:278-281 | as written, every utilisation in (0, 20) gives a negative reduction and a non-positive number of nodes to remove |
| Packing.ObservedReductionAsWritten | analyze_packing.py:279-280 | at the stated 12.79% the line as written reports −245 nodes to remove |
| Packing.ReductionReachesTarget | analyze_packing.py:278-279 | the corrected reduction lies in (0, 1], and the capacity it leaves runs the same work at exactly 20% |
| Packing.NodesToRemove | analyze_packing.py:280 | with the corrected fraction, the nodes to remove lie between 0 and the cluster's node count |
| Packing.CpusToRemove | analyze_packing.py:281 | with the corrected fraction, the CPUs to remove lie between 0 and the cluster's CPU count |
| Packing.ObservedReduction | analyze_packing.py:278-281 | at the stated 12.79% the corrected figures are 156 nodes and 27686 CPUs |
| ClusterConfig.ReplaceAllNoMatch | standardize_cluster_config.py:87 | `str.replace` leaves a text without the pattern unchanged |
| ClusterConfig.ReplaceAllAfter | standardize_cluster_config.py:87 | replacing in a text whose first part cannot hold the pattern replaces only in the rest |
| ClusterConfig.ReplaceSuffix | standardize_cluster_config.py:87 | a single trailing unit letter is replaced by its replacement |
| ClusterConfig.DigitsValueAppend | standardize_cluster_config.py:88 | digits written after others shift the others left by their count |
| ClusterConfig.ParseDecimal | standardize_cluster_config.py:88 | an unsigned numeral is read only from non-empty text, is never negative, and plain digits are read as their value |
| ClusterConfig.Float | standardize_cluster_config.py:88-113 | `float()` reads text that starts with a digit and does not end in whitespace exactly as the unsigned numeral it is |
| ClusterConfig.FloatIgnoresSpace | standardize_cluster_config.py:88-113 | whitespace around a numeral does not change what `float()` reads, so a PBS `128 gb` gives the figure of `128` |
| ClusterConfig.FloatNegative | standardize_cluster_config.py:88-113 | a leading minus negates the figure, and text that is not a numeral stays an error |
| ClusterConfig.FloatOfDigits | standardize_cluster_config.py:88-113 | `float()` of plain digits is their value |
| ClusterConfig.ParseFraction | standardize_cluster_config.py:88 | `float("a.b")` is the whole part plus the fraction |
| ClusterConfig.TrailingZeros | standardize_cluster_config.py:87-88 | zeros written after a fraction do not change its value |
| ClusterConfig.DetectionIgnoresCase | standardize_cluster_config.py:31-41 | detecting the scheduler ignores the case of the file name |
| ClusterConfig.HtCondorHoldsCondor | standardize_cluster_config.py:40 | every name holding `htcondor` holds `condor`, so the second test never decides anything |
| ClusterConfig.DetectHtCondor | standardize_cluster_config.py:31-46 | HTCondor is detected exactly when no earlier scheduler name appears and the name holds `condor` |
| ClusterConfig.SlurmNameWins | standardize_cluster_config.py:32-33 | a name mentioning slurm is read as SLURM whatever else it says |
| ClusterConfig.OutputNameFacts | standardize_cluster_config.py:25-28 | `nodes.csv` becomes `nodes_standardized.csv`; a name without `.csv` is kept as it is, so the output would overwrite the input |
| ClusterConfig.SlurmState | standardize_cluster_config.py:68 | the cleaned state holds neither `+` nor `*` |
| ClusterConfig.SlurmStateIdempotent | standardize_cluster_config.py:68-75 | cleaning a cleaned state changes nothing |
| ClusterConfig.SlurmStateDropsFlags | standardize_cluster_config.py:68-75 | flags after `+` are dropped and the rest is lower-cased |
| ClusterConfig.SlurmStateDropsStar | standardize_cluster_config.py:68-75 | the `*` marker is dropped and the rest is lower-cased |
| ClusterConfig.SlurmStateExamples | standardize_cluster_config.py:67-68 | `MIXED+DRAIN` is `mixed` and `IDLE*` is `idle` |
| ClusterConfig.SlurmStd | standardize_cluster_config.py:61-78 | a SLURM row is a GPU node exactly when its Gres mentions gpu, and keeps its name, CPUs, memory and partition |
| ClusterConfig.StandardizeSlurm | standardize_cluster_config.py:59-78 | one standard row per input row, in input order |
| ClusterConfig.UgeWholeUnitsAsWritten | standardize_cluster_config.py:84-88 | as written, `128G` and `128000M` both give 128000 MB |
| ClusterConfig.UgeDecimalGigabytesAsWritten | standardize_cluster_config.py:84-88 | as written, a gigabyte figure with a decimal point comes out in gigabytes: the three zeros land after the point |
| ClusterConfig.UgeFindingExample | standardize_cluster_config.py:86-88 | as written, the documented `128.0G` is read as 128 MB; the corrected reading gives 128000 MB |
| ClusterConfig.UgeMemoryUnits | standardize_cluster_config.py:84-88 | the corrected reading scales every decimal figure by its unit: gigabytes times 1000, megabytes as they are |
| ClusterConfig.UgeMemoryAgreesOnWholeUnits | standardize_cluster_config.py:84-88 | on whole figures the corrected reading agrees with the code as written |
| ClusterConfig.UgeStd | standardize_cluster_config.py:82-98 | a UGE row fails exactly when its memory text is unreadable; otherwise it keeps the host name and the memory, takes slots when present and num_proc otherwise, and is an available compute node |
| ClusterConfig.StandardizeUge | standardize_cluster_config.py:80-98 | the UGE loop gives one standard row per input row, or stops at the first row `float()` cannot read |
| ClusterConfig.PbsMemoryUnits | standardize_cluster_config.py:103-115 | PBS memory ignores case; gb is times 1024, mb as is, kb divided by 1024 |
| ClusterConfig.PbsStateIdempotent | standardize_cluster_config.py:117-124 | mapping a mapped state changes nothing, and the result is idle, allocated, down or the lower-cased input |
| ClusterConfig.PbsStd | standardize_cluster_config.py:102-134 | a PBS row fails exactly when its memory is unreadable; otherwise it keeps name and CPUs, with the memory and the state mapped |
| ClusterConfig.StandardizePbs | standardize_cluster_config.py:100-134 | the PBS loop gives one standard row per input row, or stops at the first unreadable memory figure |
| ClusterConfig.LsfStateIdempotent | standardize_cluster_config.py:139-148 | mapping a mapped LSF status changes nothing, and the result is available, closed, down or the lower-cased status |
| ClusterConfig.LsfStd | standardize_cluster_config.py:150-158 | an LSF row has no memory figure, its status mapped, and `max_jobs=` in the extra column |
| ClusterConfig.StandardizeLsf | standardize_cluster_config.py:136-158 | one standard row per input row, in input order |
| ClusterConfig.CondorStd | standardize_cluster_config.py:169-177 | an HTCondor row keeps its machine, CPUs and memory, its state lower-cased and `slots=` in the extra column |
| ClusterConfig.FirstPerMachineFacts | standardize_cluster_config.py:165-179 | the kept rows name each machine once, name exactly the machines of the input, and are input rows |
| ClusterConfig.FirstRowIsKept | standardize_cluster_config.py:168 | a row whose machine no earlier row names is kept |
| ClusterConfig.FirstPerMachineStep | standardize_cluster_config.py:166-177 | one more row either repeats a machine already kept or is appended |
| ClusterConfig.KeepFirstPerMachine | standardize_cluster_config.py:165-179 | the dictionary loop keeps the first row of each machine, in first-appearance order |
| ClusterConfig.Values | standardize_cluster_config.py:179 | `list(machines.values())` gives the entries in insertion order |
| ShortJobs.KeepAnalysed | analyze_short_jobs_and_arrays.py:54 | exactly the jobs with a positive run time are analysed |
| ShortJobs.KeepAnalysedMultiset | analyze_short_jobs_and_arrays.py:54 | every job with a positive run time is kept as often as the input holds it, and no other job |
| ShortJobs.CpuSecondsNonNegative | analyze_short_jobs_and_arrays.py:83 | analysed jobs never burn negative CPU-seconds |
| ShortJobs.AtMost | analyze_short_jobs_and_arrays.py:77 | the selection at a threshold holds only jobs at or under it |
| ShortJobs.AtMostMultiset | analyze_short_jobs_and_arrays.py:77 | every job at or under the threshold is selected as often as the input holds it, and no other job |
| ShortJobs.AtMostMonotone | analyze_short_jobs_and_arrays.py:77 | a higher threshold selects at least as many jobs as a lower one |
| ShortJobs.ThresholdCountsMonotone | analyze_short_jobs_and_arrays.py:66-78 | the counts of the table never decrease from 30 s up to one hour |
| ShortJobs.OverheadRatio | analyze_short_jobs_and_arrays.py:96 | the overhead ratio is the overhead as a percentage of the CPU-hours, non-negative, and 0 when there are no CPU-hours |
| ShortJobs.RowFor | analyze_short_jobs_and_arrays.py:78-112 | a threshold's row counts the jobs at or under it and charges 3 seconds a job |
| ShortJobs.ShortJobsSummary | analyze_short_jobs_and_arrays.py:74-112 | the threshold loop builds the rows for the thresholds that select some job, in threshold order |
| ShortJobs.SummaryRowsFacts | analyze_short_jobs_and_arrays.py:76-112 | every row belongs to a threshold that selects a job and is computed from exactly those jobs, and every such threshold has a row |
| ShortJobs.RowsFormATail | analyze_short_jobs_and_arrays.py:66-81 | once a threshold has a row every larger threshold has one, so the rows are a tail of the table |
| ShortJobs.SimilarMeaning | analyze_short_jobs_and_arrays.py:295-298 | against a positive anchor, "similar" is a ±20% band; against a zero anchor anything is similar |
| ShortJobs.RunEndFrom | analyze_short_jobs_and_arrays.py:290-305 | the inner loop stops at or after where it starts and within the user's jobs |
| ShortJobs.RunEndFromMeaning | analyze_short_jobs_and_arrays.py:290-305 | a run holds exactly the jobs that link without a gap and stops at the first one that does not |
| ShortJobs.SegmentUser | analyze_short_jobs_and_arrays.py:284-326 | the outer and inner while loops over one user's jobs find the greedy runs |
| ShortJobs.ExtendRun | analyze_short_jobs_and_arrays.py:290-305 | the inner while loop stops exactly where the run from its anchor ends |
| ShortJobs.SegmentsAreMaximalRuns | analyze_short_jobs_and_arrays.py:308-326 | every reported run has at least three jobs, each linked to the anchor, and cannot be extended by the next job |
| ShortJobs.SegmentsAreDisjoint | analyze_short_jobs_and_arrays.py:324 | the reported runs are disjoint contiguous ranges in submit order, because the scan resumes at a run's end |
| ShortJobs.SkippingSmallUsersLosesNothing | analyze_short_jobs_and_arrays.py:274-275 | skipping users with fewer jobs than the minimum never drops a run (same for the chains at 356-357) |
| ShortJobs.Tag | analyze_short_jobs_and_arrays.py:311-313 | each run found is reported with its user |
| ShortJobs.Detect | analyze_short_jobs_and_arrays.py:361-405 | the loop over users reports each user's runs, user by user (same for the arrays at 271-326) |
| ShortJobs.IsShortChainMeaning | analyze_short_jobs_and_arrays.py:400 | a chain is flagged short exactly when strictly more than half its jobs run 300 s or less |
| ShortJobs.OverheadTableFacts | analyze_short_jobs_and_arrays.py:443-516 | the first row covers all jobs; every other row appears only when its category has jobs; every row charges three seconds a job |
| ShortJobs.RunJobs | analyze_short_jobs_and_arrays.py:489-492 | runs that each hold jobs add up to a positive job count |
| ShortJobs.DetectedRunsArePlaced | analyze_short_jobs_and_arrays.py:307-309 | every run the detection reports lies inside its user's jobs and holds at least three of them |
| ShortJobs.RunStats | analyze_short_jobs_and_arrays.py:308-321 | one (size, CPU-hours) entry per found run, each size at least three |
| ShortJobs.DetectedOverheadTable | analyze_short_jobs_and_arrays.py:489-516 | built from the detected arrays and chains, every row of the table charges three seconds a job, and the arrays row is there exactly when some array was found |
| CrossUserImpacts.ValidJobFacts | analyze_cross_user_impacts.py:54-57 | a kept job never has negative CPU-hours, and a job with CPUs has positive CPU-hours |
| CrossUserImpacts.HighCpuThreshold | analyze_cross_user_impacts.py:99-102 | the CPU bar is the 90th percentile, raised to a tenth of the cluster's CPUs when those are known, and is one of the two |
| CrossUserImpacts.ConfigOnlyNarrows | analyze_cross_user_impacts.py:99-109 | knowing the cluster size can only raise the CPU bar, so it never adds a high-impact job |
| CrossUserImpacts.ComponentScore | analyze_cross_user_impacts.py:113-115 | a component score is the value as a percentage of the column maximum, within [0, 100]; a zero maximum gives NaN |
| CrossUserImpacts.ImpactScoreBounds | analyze_cross_user_impacts.py:118-122 | the 0.3/0.3/0.4 weights keep the impact score within [0, 100], at most the largest component, and equal to the components when they agree |
| CrossUserImpacts.Others | analyze_cross_user_impacts.py:163-173 | a window holds only jobs of other users submitted in [lo, hi), all drawn from the input |
| CrossUserImpacts.OthersMultiset | analyze_cross_user_impacts.py:163-181 | every job of another user submitted in [lo, hi) is in the window as often as the input holds it, and no other job, so the five-job test and the per-hour rates read the exact row count |
| CrossUserImpacts.OthersComplete | analyze_cross_user_impacts.py:163-173 | every job of another user submitted in the window is in it |
| CrossUserImpacts.WindowsDisjoint | analyze_cross_user_impacts.py:157-173 | no job is in both the hour before and the two hours after the impact |
| CrossUserImpacts.UsersBound | analyze_cross_user_impacts.py:191-192 | a window has at most as many distinct users as jobs, and at least one when it has jobs |
| CrossUserImpacts.Waits | analyze_cross_user_impacts.py:186-187 | one wait per job of the window |
| CrossUserImpacts.PctChange | analyze_cross_user_impacts.py:183 | the change is (after − before) as a percentage of before, and 0 when before is not positive |
| CrossUserImpacts.ChangeAboveMinusHundred | analyze_cross_user_impacts.py:183 | with both values positive the change is above −100% |
| CrossUserImpacts.CompareFacts | analyze_cross_user_impacts.py:176-196 | with five jobs in each window the rates are at least 5 and 2.5 per hour, the rate change is above −100%, both windows have users, and the trigger is a >25% rate drop or a >20% user drop |
| CrossUserImpacts.EventFacts | analyze_cross_user_impacts.py:151-218 | every recorded event satisfies those facts about its own windows |
| CrossUserImpacts.Sample | analyze_cross_user_impacts.py:148-149 | the sample is the first min(1000, n) of the jobs ranked by impact score |
| CrossUserImpacts.EventsOf | analyze_cross_user_impacts.py:151-218 | every event comes from a sampled job, skipped jobs left out |
| CrossUserImpacts.EventsOfComplete | analyze_cross_user_impacts.py:151-218 | every sampled job whose event is found contributes that event |
| CrossUserImpacts.EventsOfStep | analyze_cross_user_impacts.py:151-218 | one more sampled job appends its event when it has one and leaves the list unchanged when it is skipped |
| CrossUserImpacts.AnalyzeImpactEvents | analyze_cross_user_impacts.py:145-218 | the loop records the events of the top 1000 jobs, at most 1000 of them |
| CrossUserImpacts.SeverityOf | analyze_cross_user_impacts.py:323-327 | a change gets a severity exactly when it lies in (−100, 0]; severe is (−100, −50] and mild (−30, 0] |
| CrossUserImpacts.SeverityOfEvents | analyze_cross_user_impacts.py:314-327 | a recorded event whose rate did not rise always gets a severity, a rate-drop trigger always gets one, and a trigger from the users' drop alone with a rising rate gets none |
| CrossUserImpacts.TimeOfDayOf | analyze_cross_user_impacts.py:330-335 | every hour from 0 to 24 gets a time of day |
| CrossUserImpacts.TimeOfDayBoundaries | analyze_cross_user_impacts.py:330-335 | boundary hours belong to the earlier block: 6 is night and 12 morning |
| CrossUserImpacts.HourBlocksPartitionDay | analyze_cross_user_impacts.py:386-395 | every hour of the day falls in exactly one four-hour block |
| CrossUserImpacts.Reading | analyze_cross_user_impacts.py:125-126 | the hour of a submit time lies in [0, 24) and its weekday in [0, 7) |
| CrossUserImpacts.Within | analyze_cross_user_impacts.py:369-395 | the events selected for a weekday or an hour block are those whose submit hour or weekday lies in its range |
| CrossUserImpacts.WithinMultiset | analyze_cross_user_impacts.py:369-395 | each event of that range is selected as often as it occurs, and no other |
| CrossUserImpacts.Triggers | analyze_cross_user_impacts.py:372 | the abandonment triggers among some events are at most their number |
| CrossUserImpacts.WithinSplit | analyze_cross_user_impacts.py:369-395 | two adjacent ranges together select the events and triggers of their union |
| CrossUserImpacts.WithinWholeRange | analyze_cross_user_impacts.py:369-395 | the whole day, or the whole week, selects every event |
| CrossUserImpacts.DayCounts | analyze_cross_user_impacts.py:369-376 | a weekday row counts at most all events, and at most its events as triggers |
| CrossUserImpacts.DayCountsAddUp | analyze_cross_user_impacts.py:369-385 | the seven weekday rows count every event once and every trigger once |
| CrossUserImpacts.BlockCounts | analyze_cross_user_impacts.py:388-403 | an hour-block row counts at most all events, and at most its events as triggers |
| CrossUserImpacts.BlockCountsAddUp | analyze_cross_user_impacts.py:388-411 | the six hour-block rows count every event once and every trigger once |
| CrossUserImpacts.ByUser | analyze_cross_user_impacts.py:247 | a user's events are events of the list, all of that user |
| CrossUserImpacts.ByUserMultiset | analyze_cross_user_impacts.py:247 | each of the user's events is selected as often as it occurs, and no other |
| CrossUserImpacts.TopDay | analyze_cross_user_impacts.py:253-255 | the most common weekday's count is at least every weekday's count and is some weekday's count |
| CrossUserImpacts.FirstImpact | analyze_cross_user_impacts.py:272 | the earliest impact time is at most every event's and is some event's |
| CrossUserImpacts.LastImpact | analyze_cross_user_impacts.py:272 | the latest impact time is at least every event's and is some event's |
| CrossUserImpacts.UserEventsOf | analyze_cross_user_impacts.py:247-272 | a user's event count, triggers, top weekday count and day span are those of the user's own events; the triggers and the top weekday never exceed the count, and the span is not negative |
| CrossUserImpacts.UserEventsTopDay | analyze_cross_user_impacts.py:253-255 | the most common weekday holds at least a seventh of the user's events |
| CrossUserImpacts.TriggerRate | analyze_cross_user_impacts.py:268-269 | the trigger rate lies in [0, 100] and is 100 exactly when every event is a trigger |
| CrossUserImpacts.PatternOf | analyze_cross_user_impacts.py:253-289 | a pattern is regular exactly when over half the events fall on one weekday and there is more than one every two weeks, which needs a span of at least a day |
| CrossUserImpacts.UserPatterns | analyze_cross_user_impacts.py:246-290 | exactly the users with at least three events get a pattern |
| Recovery.EndTime | analyze_cross_user_impacts_with_recovery.py:145 | the search stops at twelve hours after the impact or at the last submission, whichever comes first |
| Recovery.FirstMetMeaning | analyze_cross_user_impacts_with_recovery.py:171-186 | a metric's recovery window is the first window meeting its threshold (80% of the baseline rate and users, 120% of the baseline wait); none means no window met it |
| Recovery.CalculateRecoveryTime | analyze_cross_user_impacts_with_recovery.py:144-201 | the 30-minute sampling loop computes the recovery search |
| Recovery.SampleWindow | analyze_cross_user_impacts_with_recovery.py:151-186 | one sample window stamps each not-yet-recovered metric that this window brings back, so the columns become those of the first k + 1 windows; it reports whether the window had enough jobs |
| Recovery.RecoverFromStops | analyze_cross_user_impacts_with_recovery.py:151-199 | the loop stops either at the first window where all three metrics have recovered, or at the first window starting at or after the end time |
| Recovery.RecoveryConsistent | analyze_cross_user_impacts_with_recovery.py:133-197 | each recovered flag is set exactly when its hours are; full recovery is reported exactly when all three recovered, at the latest of the three |
| Recovery.RecoveryHoursAreFirst | analyze_cross_user_impacts_with_recovery.py:162-186 | every reported recovery hour is the elapsed time of the first qualifying window, which starts before the end time and is below twelve hours |
| Recovery.NotRecoveredMeansNoWindow | analyze_cross_user_impacts_with_recovery.py:151-201 | a search that ends without full recovery leaves some metric that no window before the end time brought back |
| Recovery.NonTriggerNoRecovery | analyze_cross_user_impacts_with_recovery.py:263-281 | the recovery search runs only for abandonment triggers; other events report no recovery |
| Recovery.RecoveryEventsOf | analyze_cross_user_impacts_with_recovery.py:218-283 | every event comes from a sampled job, skipped jobs left out |
| Recovery.RecoveryEventsOfStep | analyze_cross_user_impacts_with_recovery.py:218-283 | one more sampled job appends its event when it has one and leaves the list unchanged when it is skipped |
| Recovery.RecoveryEventsOfComplete | analyze_cross_user_impacts_with_recovery.py:218-283 | every sampled job whose event is found contributes that event |
| Recovery.LatestSubmit | analyze_cross_user_impacts_with_recovery.py:145 | the latest submit time of all jobs is at least every job's and is some job's |
| Recovery.AnalyzeImpactEventsWithRecovery | analyze_cross_user_impacts_with_recovery.py:210-283 | only the top 100 high-impact jobs are examined, each searched up to the latest submit time of all jobs, giving at most 100 events; no ranked job gives no events |
| BaselineBehavior.KeepValid | analyze_baseline_behavior.py:46-49 | only jobs with positive runtime and non-negative wait remain, all drawn from the input |
| BaselineBehavior.KeepValidComplete | analyze_baseline_behavior.py:49 | every job with positive runtime and non-negative wait is kept |
| BaselineBehavior.KeepValidMultiset | analyze_baseline_behavior.py:49 | every job with positive runtime and non-negative wait is kept as often as the input holds it, and no other job |
| BaselineBehavior.SortInts | analyze_baseline_behavior.py:152 | sorting by submit time gives an ascending permutation of the submit times |
| BaselineBehavior.InterArrivals | analyze_baseline_behavior.py:153-154 | `diff()` with the leading NaN dropped gives one gap fewer than there are submissions |
| BaselineBehavior.InterArrivalsNonNegative | analyze_baseline_behavior.py:152-154 | gaps between submissions in time order are never negative |
| BaselineBehavior.InterArrivalsTelescope | analyze_baseline_behavior.py:153 | the gaps add up to the span from the first to the last submission, in hours |
| BaselineBehavior.SpanDays | analyze_baseline_behavior.py:144 | the whole-day span of submissions in time order is never negative |
| BaselineBehavior.ClampSpan | analyze_baseline_behavior.py:145-146 | a zero-day span counts as one day and any other span is kept |
| BaselineBehavior.PerDayBounds | analyze_baseline_behavior.py:144-149 | the per-entity daily rate is between 0 and the job count, equals the count over a zero-day span and is count over days otherwise |
| BaselineBehavior.BurstinessBounds | analyze_baseline_behavior.py:171 | the burstiness index lies in [−1, 1]; it is positive exactly when there are two or more gaps and their deviation exceeds the mean gap, negative exactly when there are two or more and it is below it (one gap has a NaN sample deviation, which fails the `> 0` test) |
| BaselineBehavior.Cv | analyze_baseline_behavior.py:157-159 | the coefficient of variation times the mean is the deviation when the mean is positive, and 0 otherwise |
| BaselineBehavior.Concentration | analyze_baseline_behavior.py:162-168 | the top value's share is a percentage in [0, 100] equal to its count over the job count |
| BaselineBehavior.TopCountOver | analyze_baseline_behavior.py:162-164 | the top count bounds the count of every candidate value and is attained by one of them |
| BaselineBehavior.TopCountFacts | analyze_baseline_behavior.py:162-168 | `value_counts().iloc[0]` is the largest count of any value present, at least 1 for a non-empty user |
| BaselineBehavior.ArrivalsFacts | analyze_baseline_behavior.py:144-178 | the arrival columns: daily rate within [0, count], mean gap present exactly with two or more jobs and equal to span over gaps, burstiness in [−1, 1] and 0 for two jobs or fewer |
| BaselineBehavior.UserJobs | analyze_baseline_behavior.py:140 | the selection holds only that user's jobs |
| BaselineBehavior.UserJobsMultiset | analyze_baseline_behavior.py:140 | every job of the user is selected as often as the input holds it, and no other job |
| BaselineBehavior.GroupJobs | analyze_baseline_behavior.py:212 | the selection holds only that group's jobs |
| BaselineBehavior.GroupJobsMultiset | analyze_baseline_behavior.py:212 | every job of the group is selected as often as the input holds it, and no other job |
| BaselineBehavior.UserBaselines | analyze_baseline_behavior.py:139-191 | the loop over the users builds the per-user rows |
| BaselineBehavior.UserBaselinesFacts | analyze_baseline_behavior.py:142-190 | every row is for a listed user with at least ten jobs, its concentrations are percentages, and it is regular exactly when a weekday holds over 30% or an hour over 20% |
| BaselineBehavior.UserBaselinesComplete | analyze_baseline_behavior.py:142 | every listed user with ten or more jobs gets a row |
| BaselineBehavior.GroupBaselines | analyze_baseline_behavior.py:211-241 | the loop over the groups builds the per-group rows |
| BaselineBehavior.GroupRow | analyze_baseline_behavior.py:211-241 | a group's row names that group and counts all of its (non-zero) jobs, and a group of one or two jobs has burstiness 0, since groups have no minimum size and one gap has no sample deviation |
| BaselineBehavior.GroupBaselinesFacts | analyze_baseline_behavior.py:211-241 | every group present gets exactly one row, in order, with no minimum size |
| BaselineBehavior.HourlyTotals | analyze_baseline_behavior.py:64-74 | one row per hour of day that has submissions, in hour order, holding its positive total |
| BaselineBehavior.DailyTotals | analyze_baseline_behavior.py:102-112 | one row per weekday that has submissions, in weekday order, holding its positive total |
| BaselineBehavior.SystemRates | analyze_baseline_behavior.py:290-303 | the system hourly rate is the daily rate over 24 hours; over a zero-day span the system rates are 0, unlike the clamped per-entity rate |
| JobEfficiency.FillNa | analyze_job_resource_efficiency.py:52-53 | filling with a default always gives a value and keeps a present one |
| JobEfficiency.Load | analyze_job_resource_efficiency.py:36-53 | each numeric column with a default that is present is never missing after loading: CPUs and nodes default to 1, memory and GPU requests to 0 |
| JobEfficiency.ClippedRatio | analyze_job_resource_efficiency.py:74 | a derived efficiency lies in [0, 100], is missing exactly for a missing operand or 0/0, and is used/requested × 100 when use is within the request |
| JobEfficiency.SuppliedPercentageWins | analyze_job_resource_efficiency.py:70-80 | supplied efficiency percentages are used as they are, before any derived ratio |
| JobEfficiency.DerivedEfficiencyBounds | analyze_job_resource_efficiency.py:72-74 | a derived CPU efficiency and its waste lie in [0, 100] and wasted CPU-hours never exceed the job's CPU-hours |
| JobEfficiency.SuppliedPercentageCanOverflow | analyze_job_resource_efficiency.py:70-71 | a supplied CPU percentage is not clipped: 120% on 4 CPUs for an hour gives −20% waste and −0.8 wasted CPU-hours |
| JobEfficiency.MemoryPrecedence | analyze_job_resource_efficiency.py:79-90 | memory efficiency comes from peak use before average use, is missing when nothing or an empty amount was requested, and is within [0, 100] otherwise |
| JobEfficiency.NoGpuNoEfficiency | analyze_job_resource_efficiency.py:93-97 | a job that requested no GPU has no GPU efficiency |
| JobEfficiency.EfficiencyTable | analyze_job_resource_efficiency.py:56-58 | every metrics row comes from an input row with a positive runtime |
| JobEfficiency.KeptRowsHaveRuntime | analyze_job_resource_efficiency.py:57-58 | a kept row has a positive runtime whenever the time columns exist |
| JobEfficiency.KeptRowsMultiset | analyze_job_resource_efficiency.py:56-58 | every row with a positive runtime (every row, without the time columns) is kept as often as the input holds it, and no other row |
| JobEfficiency.EfficiencyTableOfKept | analyze_job_resource_efficiency.py:56-58 | the table has one metrics row per kept row, in input order, so no kept row is dropped |
| JobEfficiency.Present | analyze_job_resource_efficiency.py:152 | `dropna()` keeps at most the values it was given |
| JobEfficiency.PresentMultiset | analyze_job_resource_efficiency.py:152 | `dropna()` keeps every present value as often as the column holds it, and nothing else |
| JobEfficiency.CountBelowStrict | analyze_job_resource_efficiency.py:156 | the low-efficiency count is strict: values at or above 50 are never counted, values below always are |
| JobEfficiency.SummaryOf | analyze_job_resource_efficiency.py:134-167 | a summary counts all of the entity's jobs, counts low-efficiency jobs only among present values, and has a mean exactly when some efficiency is present |
| JobEfficiency.WithKey | analyze_job_resource_efficiency.py:132 | the selection holds only rows with that key, all from the table |
| JobEfficiency.WithKeyMultiset | analyze_job_resource_efficiency.py:132 | every row with that key is selected as often as the table holds it, and no other row |
| JobEfficiency.Breakdown | analyze_job_resource_efficiency.py:128-169 | the loop over the distinct keys builds the breakdown, skipping a missing key |
| JobEfficiency.BreakdownComplete | analyze_job_resource_efficiency.py:128-169 | every present key gets a row holding the summary of exactly its own jobs |
| QueueWait.KeepWaits | analyze_queue_wait_times.py:33-40 | every kept row is an input job with both times present, carrying its own start − submit wait, which is not negative |
| QueueWait.WaitingMultiset | analyze_queue_wait_times.py:33-40 | every job with both times and a non-negative wait is kept as often as the input holds it, and no other job |
| QueueWait.KeepWaitsOfWaiting | analyze_queue_wait_times.py:33-40 | the kept rows are those jobs in input order, one row per job, each with its own wait |
| QueueWait.LoadJobData | analyze_queue_wait_times.py:34-45 | loading fails exactly when the submit or start column is missing; otherwise every kept wait is non-negative |
| QueueWait.KeepWaitsComplete | analyze_queue_wait_times.py:40 | every job with a non-negative wait is kept |
| QueueWait.Cut | analyze_queue_wait_times.py:89 | `pd.cut` bins are right-closed: a value gets a bin exactly when it is above the first edge, and then lies in (edge i, edge i+1] |
| QueueWait.CutUnique | analyze_queue_wait_times.py:89 | a value's bin is the only one whose bounds hold it |
| QueueWait.WaitBin | analyze_queue_wait_times.py:87-89 | with the lowest bin made to include zero, every non-negative wait gets one of the ten labels |
| QueueWait.WaitBinAsWrittenDropsZero | analyze_queue_wait_times.py:87-89 | with the edges as written, a wait of exactly 0 minutes gets no bin, while "<1min" is meant to hold it |
| QueueWait.WaitBinCorrection | analyze_queue_wait_times.py:87-89 | the corrected binning agrees with the written one on every positive wait and bins every non-negative wait; 5 minutes is "1-5min" |
| QueueWait.CountIn | analyze_queue_wait_times.py:92 | a bin count never exceeds the number of waits |
| QueueWait.Counts | analyze_queue_wait_times.py:91-92 | one count per label |
| QueueWait.WaitDistribution | analyze_queue_wait_times.py:91-94 | the loop over the labels computes the per-bin counts |
| QueueWait.DistributionIsComplete | analyze_queue_wait_times.py:87-94 | with the corrected bins, the counts of all labels add up to the number of jobs |
| QueueWait.DistributionAsWrittenMissesZero | analyze_queue_wait_times.py:87-94 | as written, adding a zero-minute wait leaves every count, and their total, unchanged |
| QueueWait.CpuBinEdges | analyze_queue_wait_times.py:350-352 | CPU-size bins are right-closed: 256 CPUs is "129-256", 257 is "256+", 1 is "1", 4 is "2-4", and 0 falls in no bin |
| QueueWait.WeekOfMonthRange | analyze_queue_wait_times.py:249-253 | `(day − 1) // 7 + 1` is within 1..5, week 1 is days 1-7, week 5 is day 29 onwards, and each week covers seven days |
| QueueWait.CalendarTables | analyze_queue_wait_times.py:188-305 | the hour, weekday, week-of-month and month loops each keep exactly the keys that have jobs, in key order |
| QueueWait.MonthlyTableFacts | analyze_queue_wait_times.py:287-305 | the month table is in calendar order, has a row with a positive count for every month that has jobs, and only for those |
| QueueWait.ThresholdCountsOrdered | analyze_queue_wait_times.py:123-125 | jobs over a day are among those over an hour, no job is both under five minutes and over an hour, and the thresholds are strict |
| QueueWait.CpuHoursWaitedNonNegative | analyze_queue_wait_times.py:129-130 | CPU-hours waited are never negative for non-negative waits and CPU counts |
| QueueWait.UserJobs | analyze_queue_wait_times.py:112 | the selection holds only that user's jobs |
| QueueWait.UserJobsMultiset | analyze_queue_wait_times.py:112 | every job of the user is selected as often as the input holds it, and no other job |
| QueueWait.AnalyzePerUser | analyze_queue_wait_times.py:108-132 | the loop over the users builds the per-user rows, skipping a missing user |
| QueueWait.UserRowsFacts | analyze_queue_wait_times.py:108-132 | every row is for a listed user, counts exactly that user's jobs, keeps the threshold counts ordered, and has CPU-hours waited exactly when the CPU column exists |
| QueueWait.GroupJobs | analyze_queue_wait_times.py:155 | the selection holds only that group's jobs |
| QueueWait.GroupJobsMultiset | analyze_queue_wait_times.py:155 | every job of the group is selected as often as the input holds it, and no other job |
| QueueWait.AnalyzePerGroup | analyze_queue_wait_times.py:151-171 | the loop over the groups builds the per-group rows, skipping a missing group |
| MockAnalysis.TickCount | analyze_mock_user_group_data.py:219-223 | the number of 6-hour sample times from the first start that lie strictly before the last end |
| MockAnalysis.Ticks | analyze_mock_user_group_data.py:219-223 | the sample times are the first start plus whole multiples of six hours, all before the last end |
| MockAnalysis.SampleTimes | analyze_mock_user_group_data.py:219-223 | the `while current < end_date` loop builds exactly those sample times |
| MockAnalysis.MinStart | analyze_mock_user_group_data.py:213 | the earliest start is at or before every job's start and is one of them |
| MockAnalysis.MaxEnd | analyze_mock_user_group_data.py:214 | the latest end is at or after every job's end and is one of them |
| MockAnalysis.Running | analyze_mock_user_group_data.py:232 | every selected job started at or before the time and ends strictly after it |
| MockAnalysis.RunningMultiset | analyze_mock_user_group_data.py:232 | every job running at the time is selected as often as the input holds it, and no other job |
| MockAnalysis.PeakIsEarliestMaximum | analyze_mock_user_group_data.py:225-237 | the peak is the largest sampled load, its time is the earliest sample reaching it, and there is no peak time exactly when every load is 0 |
| MockAnalysis.PeakLoadPositive | analyze_mock_user_group_data.py:234-237 | a peak time is recorded exactly when the peak load is positive |
| MockAnalysis.Groups | analyze_mock_user_group_data.py:245 | the groups of the peak jobs, each listed once, exactly those present |
| MockAnalysis.InGroup | analyze_mock_user_group_data.py:245-248 | the selection is never longer than the peak jobs it is drawn from |
| MockAnalysis.InGroupMultiset | analyze_mock_user_group_data.py:245-248 | every peak job of the group is selected as often as the peak holds it, and no other job |
| MockAnalysis.PeakAttributionFacts | analyze_mock_user_group_data.py:225-250 | a report holds the greatest sampled load, the earliest sample reaching it, and group shares adding up to 100% |
| MockAnalysis.PeakAttributionFails | analyze_mock_user_group_data.py:225-245 | the report fails, with no peak jobs to group, exactly when every sampled load is 0 |
| MockAnalysis.PeakAttribution | analyze_mock_user_group_data.py:205-250 | the sampling loop computes the peak report |
| MockAnalysis.ScanPeak | analyze_mock_user_group_data.py:225-238 | the scan keeps the first strictly greatest load, its time and the jobs running then |
| MockAnalysis.SumGroupsCovers | analyze_mock_user_group_data.py:245-246 | the per-group CPU sums add up to the peak load |
| MockAnalysis.SharesSumToHundred | analyze_mock_user_group_data.py:250 | the group percentages of the peak add up to 100 before rounding |
| MockAnalysis.StrategyRules | analyze_mock_user_group_data.py:286-297 | which cloud strategy fires, case by case in first-match order, and the estimated savings lie between 10% and 80% of the on-premises cost |
| MockAnalysis.Pct | analyze_mock_user_group_data.py:273-276 | a group's percentage of jobs meeting a test lies in [0, 100] |
| MockAnalysis.ShortAndLongDisjoint | analyze_mock_user_group_data.py:273-274 | no job is both under an hour and over a day, so the short and long shares add to at most 100% |
| MockAnalysis.GrowthRules | analyze_mock_user_group_data.py:322-342 | only groups with three or more months are reported; an action goes with a trend in the same direction; a flat count is stable with no action; a doubling is growing with a burst-quota action |
| MockAnalysis.EfficiencyBounds | analyze_mock_user_group_data.py:185 | the score out of 10 lies in [0, 10], and a group's overall efficiency lies between its CPU and its memory efficiency as percentages, so within [0, 100] |
| MockGenerator.MakeUser | generate_mock_user_group_data.py:112-127 | no user is both a power user and wasteful; job frequency is 1000 or 200 per year and the efficiency modifier 0.5 or 1.0 |
| MockGenerator.GroupUsers | generate_mock_user_group_data.py:112 | a group contributes as many users as its size |
| MockGenerator.UsersOf | generate_mock_user_group_data.py:111-128 | all groups together contribute the sum of their sizes |
| MockGenerator.GenerateUsers | generate_mock_user_group_data.py:106-130 | the nested loops with the running id build the user list |
| MockGenerator.AddGroupUsers | generate_mock_user_group_data.py:112-128 | the inner loop appends the group's users in order and advances the running id by the group size |
| MockGenerator.GroupUsersAt | generate_mock_user_group_data.py:112-128 | the k-th user of a group is built from its index k and the k-th running id |
| MockGenerator.UsersNumbered | generate_mock_user_group_data.py:109-128 | user ids run user_0001, user_0002, … in group order |
| MockGenerator.PaddedInjective | generate_mock_user_group_data.py:120-121 | a prefix and a zero-padded number determine the number |
| MockGenerator.SeventySixUsers | generate_mock_user_group_data.py:19-76 | the seven groups yield 76 users |
| MockGenerator.UserIdsDistinct | generate_mock_user_group_data.py:120 | no two users share an id |
| MockGenerator.UsernamesDistinct | generate_mock_user_group_data.py:121 | within a group no two users share a name |
| MockGenerator.UserFlagsShape | generate_mock_user_group_data.py:114-117 | power users are the first 20% and wasteful users the last 20% of a group; a group of five or more has at least one of each |
| MockGenerator.DayJobs | generate_mock_user_group_data.py:147-151 | weekdays keep the drawn job count; weekends keep at most it (40%, truncated) |
| MockGenerator.KeepBoundRules | generate_mock_user_group_data.py:160-167 | a power user in a peak month is never skipped; an ordinary user outside one keeps a draw with probability 0.1 |
| MockGenerator.ClampRuntime | generate_mock_user_group_data.py:173 | runtimes are kept within [0.01 h, 168 h] and unchanged inside it |
| MockGenerator.WasteMultiplierAtLeastOne | generate_mock_user_group_data.py:178-180 | the over-request factor is at least 1 |
| MockGenerator.RequestedAtLeastNeeded | generate_mock_user_group_data.py:182-183 | a truncated request with a factor of at least 1 is at least the need |
| MockGenerator.GeneratedJobFacts | generate_mock_user_group_data.py:173-187 | every generated job asks for at least the CPUs and memory it uses, so both efficiencies lie in (0, 1], the waste cost lies between 0 and the on-premises cost, and the cloud cost is a fifth of it |
| MockGenerator.RequestsCoverUse | generate_mock_user_group_data.py:178-187 | requests cover usage, and a 9999 GB request still counts as at least any drawn memory |
| MockGenerator.JobMetricFacts | generate_mock_user_group_data.py:237-246 | the derived efficiencies and costs of a job that requests at least what it uses |
| MockGenerator.ChoiceBounds | generate_mock_user_group_data.py:79-104 | every profile draws at least 1 CPU and 4 to 256 GB of memory |
| AwsMigration.KeepJobs | analyze_full_aws_migration.py:62-65 | only jobs with a known run time strictly between 0 and 10000 hours remain |
| AwsMigration.KeepJobsMultiset | analyze_full_aws_migration.py:62-65 | every job with a known run time strictly between 0 and 10000 hours is kept as often as the input holds it, and no other job |
| AwsMigration.DurationOf | analyze_full_aws_migration.py:91-95 | duration categories are right-closed: (0, 1], (1, 4], (4, 24] and over 24 hours, and a run time of 0 or less has none |
| AwsMigration.MixedCostBounds | analyze_full_aws_migration.py:126-131 | a spot/on-demand mix costs between pricing every hour at spot and every hour on demand |
| AwsMigration.CategoriesPartition | analyze_full_aws_migration.py:91-100 | every kept compute job falls in exactly one duration category, so the four categories hold all compute CPU-hours |
| AwsMigration.CategoryCpuHoursNonNegative | analyze_full_aws_migration.py:122-123 | a category's summed CPU-hours are never negative |
| AwsMigration.ComputeCostBounds | analyze_full_aws_migration.py:116-133 | the compute bill lies between all compute CPU-hours at the spot price and all of them on demand |
| AwsMigration.InstanceOf | analyze_full_aws_migration.py:159-161 | a GPU job goes to g5.xlarge exactly when it requests at most 16 CPUs, else to p3.2xlarge |
| AwsMigration.InstancesPartition | analyze_full_aws_migration.py:159-182 | the g5 and p3 job hours together are all GPU job hours |
| AwsMigration.SupportYearly | analyze_full_aws_migration.py:243-245 | yearly support is the larger of 10% of the compute and GPU bill and $1200 |
| AwsMigration.AnalyzeFullMigration | analyze_full_aws_migration.py:82-317 | no surviving job stops the script with ZeroDivisionError, and only then; otherwise the per-category loop and the fixed terms compute the cost breakdown, its total and the three-year saving |
| AwsMigration.FixedTerms | analyze_full_aws_migration.py:203-231 | 500 TB of FSx costs $890,880 a year and 10 TB a month of egress past the free 100 GB costs $10,951.20 |
| AwsMigration.TotalFacts | analyze_full_aws_migration.py:268-317 | the total is at least compute and GPU plus the fixed storage, transfer, support floor and operations, so the three-year saving is at most three years of the on-premises budget less the migration and three years of those terms |
| AwsMigration.StorageScenario | analyze_full_aws_migration.py:377-380 | a storage scenario's total is the total at that storage size, growing with it |
| Abandonment.HourTicks | analyze_submission_abandonment.py:31-33 | hourly time points from the first to the last submission, both ends included: they start at the first, step by one hour and stop at the last hour not past the last submission |
| Abandonment.FirstSubmit | analyze_submission_abandonment.py:31 | the earliest submit time is at most every present submit time and is one of them; it is NaT exactly when no submit time is present |
| Abandonment.LastSubmit | analyze_submission_abandonment.py:32 | the latest submit time is at least every present submit time and is one of them; it is NaT exactly when no submit time is present |
| Abandonment.TimePoints | analyze_submission_abandonment.py:31-33 | without any submit time the script stops with ValueError; otherwise the first time point is a submission and every submission falls before the hour after the last time point |
| Abandonment.SeriesOf | analyze_submission_abandonment.py:45-67 | one point per time point, holding the counts at that time |
| Abandonment.SampleSeries | analyze_submission_abandonment.py:39-67 | the loop over the time points builds the series |
| Abandonment.QueuedHoursPositive | analyze_submission_abandonment.py:55-60 | the queued jobs' waiting hours add up to a non-negative sum, positive exactly when something is queued |
| Abandonment.AvgQueueHoursPositive | analyze_submission_abandonment.py:58-63 | the mean queue time is non-negative, and positive exactly when the queue is not empty |
| Abandonment.QueuedAndRunningDisjoint | analyze_submission_abandonment.py:55-67 | no job is queued and running at the same time, so the two counts add to at most the number of jobs |
| Abandonment.SubmissionWindowsDisjoint | analyze_submission_abandonment.py:50-52 | a job counts in the submission rate of at most one time point |
| Abandonment.ArgMin | analyze_submission_abandonment.py:140 | `np.argmin` picks the first NaN if there is one, else the first smallest correlation |
| Abandonment.ArgMinUnique | analyze_submission_abandonment.py:140 | that rule picks at most one index, so it fixes `np.argmin`'s answer |
| Abandonment.SignificanceOf | analyze_submission_abandonment.py:129-135 | a lag is strong exactly when its correlation is beyond ±0.3, and a NaN correlation is never significant |
| Abandonment.ConclusionOf | analyze_submission_abandonment.py:299-311 | strong evidence exactly when the optimal correlation is below −0.2, weak exactly when it is in [−0.2, −0.1) |
| Abandonment.OptimalLag | analyze_submission_abandonment.py:139-142 | the optimal lag and its correlation are those of the index `np.argmin` picks: the first NaN correlation if any, else the first smallest |
| Abandonment.OptimalLagIsMinimal | analyze_submission_abandonment.py:139-146 | with every correlation defined, the optimal one is the smallest, and the evidence is strong exactly when some lag's correlation is below −0.2 |
| Abandonment.ExtremeHours | analyze_submission_abandonment.py:205-206 | every extreme hour is a time point whose queue length reaches the threshold |
| Abandonment.LaggedIndices | analyze_submission_abandonment.py:215-216 | the shifted indices lie inside the series |
| Abandonment.LaggedIndicesSound | analyze_submission_abandonment.py:215-216 | every look-up is an extreme hour shifted by the lag |
| Abandonment.LaggedIndicesComplete | analyze_submission_abandonment.py:215-216 | every extreme hour whose shift stays inside the series is looked up |
| Abandonment.RateAfterExtremesDefined | analyze_submission_abandonment.py:211-220 | the mean rate after extreme hours is reported exactly when some extreme hour lies at least `lag` hours before the end of the series |
| Abandonment.ExtremeHoursComplete | analyze_submission_abandonment.py:206 | every time point whose queue length reaches the threshold is an extreme hour |
| AbandonmentEvents.SampleCount | analyze_submission_abandonment_events.py:41-42 | every 100th job from the first: the number of samples is the job count divided by 100, rounded up |
| AbandonmentEvents.QueueAt | analyze_submission_abandonment_events.py:52-53 | the queue a submission sees never holds more than all jobs |
| AbandonmentEvents.EventsOf | analyze_submission_abandonment_events.py:42-60 | one event per sample, the k-th for job 100·k, which exists |
| AbandonmentEvents.SampleEvents | analyze_submission_abandonment_events.py:44-60 | the sampling loop builds exactly those events |
| AbandonmentEvents.QueueExcludesSelf | analyze_submission_abandonment_events.py:52-53 | a job never counts in the queue it sees, since it was not submitted strictly before itself |
| AbandonmentEvents.TimeSincePrevNonNegative | analyze_submission_abandonment_events.py:27-68 | in submit order the first sample has no gap and every defined gap is non-negative |
| AbandonmentEvents.WindowCount | analyze_submission_abandonment_events.py:83-85 | the submissions within 30 minutes either way are at most all samples |
| AbandonmentEvents.RollingRates | analyze_submission_abandonment_events.py:71-89 | one rolling rate per sample |
| AbandonmentEvents.ComputeRollingRates | analyze_submission_abandonment_events.py:71-89 | the loop over the samples computes the rolling rates |
| AbandonmentEvents.RollingRateBounds | analyze_submission_abandonment_events.py:78-88 | a sample lies in its own window, so its rate is between 1 per hour and the number of samples |
| AbandonmentEvents.WindowHoldsSelf | analyze_submission_abandonment_events.py:83-85 | the window around a sample counts that sample |
| AbandonmentEvents.QueueBinRules | analyze_submission_abandonment_events.py:144-146 | an empty queue gets no bin, 1 to 100 is "0-100", above 2000 is ">2K", and every bin is one of the five labels |
| AbandonmentEvents.ConclusionOf | analyze_submission_abandonment_events.py:270-284 | strong evidence exactly when the rate correlation is below −0.2 or the gap correlation above 0.2; none exactly when neither passes ±0.1; NaN passes no test |
| AbandonmentEvents.ConclusionMonotone | analyze_submission_abandonment_events.py:270-284 | a more negative rate correlation or a larger gap correlation never weakens the verdict |

## Left out

- CSV reading and writing, chunked reads, printing and plotting are I/O. This covers the plotting parts of analyze_submission_abandonment.py and analyze_submission_abandonment_events.py.
- pandas and numpy statistics (mean where it is only reported, median, quantile, std, corr, autocorr, polyfit) are inputs. The model proves what follows from them, not how they are computed.
- Sorting by pandas `sort_values` is a precondition or an input, not an algorithm in the model. This covers the event sort in analyze_true_utilization.py, the submit-time sorts and the report orderings (`sort_values(..., ascending=False)`) of the per-user, per-group and per-week tables.
- Calendar arithmetic (`to_period`, `date_range` in calendar units, `dt.hour`, `dt.dayofweek`, `dt.month`, `dt.date`) is replaced by given integers, except the submit hour and weekday of analyze_cross_user_impacts.py, which are computed from the seconds. Timestamps are integer seconds, except in the time-weighted averages of analyze_true_utilization.py, where they are the real seconds that `total_seconds()` returns.
- Floating-point rounding (`round`, `:.1f`) and IEEE infinities are not modelled. Prices and ratios are exact reals; NaN is `None`.
- Randomness in generate_mock_user_group_data.py (runtime, CPU and memory draws, user sampling, the skip and MAX_INT draws, submit hour and queue time) is given as parameters. The day loop of `generate_jobs` and the submit/start/end times it builds are not modelled; the per-day count, the keep bound and the per-job factors are.
- analyze_workload_characteristics.py, visualize_utilization.py, analyze_jobs.py and analyze_cluster_config.py are not part of this model. They are statistical tests, charts and value-count reports.
- analyze_utilization.py:164-226: the total-CPU estimate and utilisation ratios printed after the inventory are not modelled.
- analyze_split_utilization.py:232-320: `analyze_memory_patterns` and `compare_node_types` print side-by-side means and are not modelled.
- analyze_short_jobs_and_arrays.py:88 and 104: the `pct_of_cpu_hours` column of the threshold table is a reported ratio and is not modelled; the counts and CPU-hours it divides are.
- analyze_short_jobs_and_arrays.py:119-256: the per-user, per-group and temporal short-job tables are groupby summaries and are not modelled.
- analyze_cross_user_impacts.py:337-470: the severity summary means, the per-row means of the weekday and hour-block tables and `analyze_cross_group_impacts` are groupby means and are not modelled. The rows' event and trigger counts are.
- analyze_cross_user_impacts.py:258-264: a user's mean and spread of submit hours and mean impact metrics are reported means and are not modelled; the aggregates the pattern rule reads are.
- analyze_submission_abandonment.py:82-84 and 159-198: the work-hours and weekday flags feed only the work-hours split of the correlation, which, like the detrended autocorrelation, is a correlation and is not modelled.
- analyze_submission_abandonment_events.py:148-162: the mean inter-arrival time and rolling rate per queue-length bin are printed means and are not modelled.
- analyze_submission_abandonment_events.py:169-190: the work-hours flag and the work/off-hours correlations it splits are correlations only and are not modelled.
- analyze_queue_wait_times.py:341-376: `analyze_by_job_size` bins jobs by CPUs and reports mean waits per bin; it is a groupby mean and is not modelled.
- analyze_submission_abandonment.py:146-151: the first verdict, evidence exactly when the optimal correlation is below −0.1, is printed only. The three-way conclusion at 299-311 is modelled.
- analyze_full_aws_migration.py:359-366: the ×1.2 and ×0.85 sensitivity totals are single multiplications and are not modelled. The storage scenarios are.
- analyze_mock_user_group_data.py:38-77: `analyze_cost_allocation` is a groupby sum of costs per group and is not modelled.
- analyze_mock_user_group_data.py:259-265: the peak-vs-typical spike is a printed ratio of a group's peak to its mean daily CPUs and is not modelled.
- analyze_mock_user_group_data.py:80-200: the power-user, waste-attribution and group-efficiency tables are groupby sums and means and are not modelled. Their score formulas are.
- ClusterConfig.Float: `float()` also accepts an exponent (`1e3`), underscores between digits, `inf`, `nan` and non-ASCII digits and whitespace; the model reads these as errors. A memory text of that form makes the script carry on where the model reports an error.
- ClusterConfig.ParseDecimal: states the unsigned numeral only; the whitespace and sign `float()` accepts are in `Float`, which the memory readers use.
- Common.ToLower: lower-cases ASCII letters only. Python's `str.lower()` also lower-cases non-ASCII letters, so a state or scheduler name with such letters is compared differently.
- Nodelist.WordRun: `\w` is read as the ASCII word class. Python's `re` also matches non-ASCII letters and digits, so such a host name is split differently.
- Nodelist.RangeRun: `\d` is read as the ASCII digits. Python's `re` also matches non-ASCII digits.
- ClusterUtilization.TrailingDigits: `\d` is read as the ASCII digits. Python's `re` also matches non-ASCII digits.
- Nodelist: Python's `int()` also accepts a sign, surrounding whitespace and non-ASCII digits. The model reads ASCII digits only.
- BaselineBehavior: user and group keys are numbers, so a row whose user or group is NaN, which `groupby` drops, cannot be expressed.
- MockAnalysis.StrategyRules: the rule is applied to unrounded percentages, while the script rounds them to one decimal before comparing.

## Findings

| source | as written | input that shows it | evidently intended | confidence | as-written member | corrected member |
|---|---|---|---|---|---|---|
| analyze_packing.py:278-281 | `potential_reduction = 1 - (20 / utilization)` | average utilisation 12.79%: the reduction is about −0.56 and "nodes to remove" is −245 | `1 - utilization / 20`, the share of nodes that can go while the rest run at 20% | high, not executed | Packing.ReductionAsWrittenIsNegative | Packing.ReductionReachesTarget |
| standardize_cluster_config.py:84-88 | `G` is replaced by `000` in the text before `float()` | `128.0G` is read as 128.0 MB | 128.0 GB is 128000 MB, as `128G` already is | high, not executed | ClusterConfig.UgeFindingExample | ClusterConfig.UgeMemoryUnits |
| analyze_queue_wait_times.py:87-94 | `pd.cut` with bins starting at 0 and right-closed intervals | a job that started the moment it was submitted (wait 0) falls in no bin, so the label percentages do not add up to 100 | "<1min" includes a wait of 0 | high, not executed | QueueWait.WaitBinAsWrittenDropsZero | QueueWait.DistributionIsComplete |
| analyze_packing.py:161 | the "% of node capacity wasted" line divides by the compute-node core count (192) for GPU nodes too | one 1-CPU job running for one hour on a GPU node | divide by the cores of the node type the jobs ran on | medium, not executed | Packing.WastePctUndercountsGpuNodes | Packing.WasteIsComplementOfUse |
