# Kayobe configuration: proofs about its resolver, scanner, exporter and filters

A model in Dafny 4.11 of the four parts of StackHPC Kayobe Configuration that compute something, and proofs
of what they promise. `dafny verify dfyconfig.toml` checks everything.

## What is modelled

**Kolla image tags** (`tools/kolla-images.py`, `etc/kayobe/pulp.yml`). A container's tag comes from its own
variable, from the variable an exception table names, from the longest prefix that has a tag for the distro,
or from the `openstack` default. `StableSort` writes Python's stable sort out. `ParentSearch` is the search on
bare names, without the sort, and `KollaTags` is the script's code with its literal tables; the two are proved
equal. `TagHierarchy` studies chains of parents, for any exception table in which no hop can follow a hop
(`ExceptionTableSound`: the literal table is one). `TagVarLines` prints the override lines and reads
them with a grammar of its own, which takes a line for what Ansible would look up whatever names it holds; `Deployment` evaluates them over Kolla Ansible's role defaults, and `DeployAgreement` compares that
tag with the one the script finds, over the tags files that pass `validate`; `DeployExample` holds two
hierarchies on which they differ. `TagOrder`, `TagEdits`, `TagValidation`, `ImageTags` and `PulpSync` cover
the order of the file, single edits, validation, `get_tags` and the container sync.

**Image scans** (`tools/scan-images.sh`). `ScanVerdict` is what one scan report turns into; `ScanDispatcher`
is the parallel dispatcher as a transition system in which the failure check, the start, the recording of a
result and the end of a job are separate steps; `ScanOutcome` proves what every interleaving comes to.

**SMART metrics** (`etc/kayobe/ansible/scripts/smartmon.py`). `PyText`, `MetricText` and `MetricExport` are the
printed metric line, its parser and the gauges built from it, and `MetricErrors` is what becomes of label values
that cannot be read back. `CamelCase`, `SmartNames`, `SmartValues` and
`SmartDevices` are the emitters; `SmartExport` and `SmartRegistry` are the device loop and what it emits, and
`SmartRun` follows a whole run from the device list to the registry. `SmartReports` says which metrics each part
reports, with which labels and values, and `SmartLookup` what a reader of the registry finds for one disk.

**Host filters** (`etc/kayobe/ansible/filter_plugins/filters.py`). `HostGroups` holds both filters and how
their results relate.

Loops are methods with invariants, each proved equal to a specification function or predicate; the lemmas are
about those. Text that the scripts only pass to a library is a parameter: the pattern a tag must match, how a
number is printed (`format`), how text is read as a number (`parse`, `toFloat`), and which names prometheus_client
accepts for a gauge (`accepts`).

## Where the code does less than it seems to

* Tags deployed by Ansible and tags found by the script are *not* always equal, even for a hierarchy that
  `check-hierarchy` accepts and a tags file that passes `validate`: `AcceptedHierarchyDisagrees` names one. `DeployAgreesIff` gives the exact
  condition on the hierarchy: every exception container that some ordinary name extends must hop to its own
  ancestors. A hierarchy in which no name extends an exception container meets it.
* `validate` checks that `openstack` is present, not that it has a tag for each distro. Without that tag the
  script and Ansible fail together only under one more condition (`DeployAgreesOrBothFailIff`);
  `DefaultlessFileDisagrees` is an accepted hierarchy that does not meet it.
* Dropping an override whose value its parent already gives is harmless for an ordinary variable
  (`OrdinaryOverrideIff`). For an exception container that holds of the container itself; if another container
  takes its tag, the tag found by its prefix must be the same too (`RedundantOverrideIff`, over any set of
  containers; `DroppedOverrideMatters` is a file where it is not).
* `categorise_image` searches whole rows for `CRITICAL`, and a row shows the severity of the first match of its
  ID only. A critical match behind a high one is missed (`CriticalMatchMissed`), and a package with the word in
  its name is taken for critical (`HighMatchMistaken`). `CriticalRightIff` is when the verdict is right.
* A label value with a closing brace makes the whole export raise (`BraceRaises`). One with a comma, or with a
  quote at an end, either makes it raise, because a `=` after the comma adds a label that other lines of the
  metric lack (`ExtraLabelRaises`) or that no gauge may have, or is exported as something else without an error
  (`CommaAlters`). `RunRaisesIff` and `SilentlyWrongIff` say exactly when.
* The device's information line prints an absent interface as an empty `type`, the SMART status lines print it
  as `None` (lines 280 and 291 of `smartmon.py`); the model does the same.
* The `No data` marker that `get_hostvars_by_host` writes for a skipped task never survives: the entry is
  overwritten or an error is raised (`AddEntry`).

## Model

| member | source | states |
|---|---|---|
| StableSort.SortStable | tools/kolla-images.py:193 | the sort is a permutation in key order that keeps elements of equal key in their order |
| StableSort.StableSortUnique | tools/kolla-images.py:193 | two lists that are both stable sorts of the same elements are equal, so nothing depends on the algorithm |
| StableSort.SortHead | tools/kolla-images.py:193 | the first element of the sorted list is the leftmost one of least key |
| KollaTags.ExceptionTableSound | tools/kolla-images.py:89-102 | no prefix variable is, or extends, an exception container; no exception container extends another or is a prefix of `openstack` |
| KollaTags.DefaultContainer | tools/kolla-images.py:165-168 | an image outside the table has one container: the name with the image's characters and an underscore for each dash |
| KollaTags.NoDash | tools/kolla-images.py:41-86 | no container has a dash in its name |
| KollaTags.IronicNeutronAgent | tools/kolla-images.py:89-168 | `ironic-neutron-agent` is used by the exception container `ironic_neutron_agent`, whose tag comes from `neutron` |
| KollaTags.SortedHeadIsAbove | tools/kolla-images.py:181-193 | the first key in `tag_key` order is the longest proper prefix that carries the distro, or `openstack` |
| KollaTags.ParentTagNameIsParent | tools/kolla-images.py:171-193 | with `openstack` present and no empty key, the lookup never raises and equals the search on names |
| TagOrder.OrderIndependentIff | tools/kolla-images.py:181-193 | every order of the file gives the same parent if and only if a prefix variable or non-empty prefix is found, or exactly one key can be the fall-back |
| TagOrder.UndeterminedDiffers | tools/kolla-images.py:181-193 | otherwise two orders of the same keys give different parents |
| TagValidation.ValidateEntries | tools/kolla-images.py:259-264 | reports exactly the unsupported distros and the ill-formed tags of one variable |
| TagValidation.Validate | tools/kolla-images.py:245-269 | a problem is reported if and only if the tags file has it |
| TagValidation.ValidatedIff | tools/kolla-images.py:245-264 | a file passes if and only if it has `openstack`, every key matches, and every tag is for one of the two distros and matches its pattern |
| TagValidation.KeyMatchesIff | tools/kolla-images.py:247 | a key matches if and only if it is one or more small letters, digits and underscores, perhaps with a newline at the end |
| TagValidation.StampedIff | tools/kolla-images.py:249-252 | a tag matches if and only if it is the release, the distro and a timestamp |
| TagValidation.ValidatedUsable | tools/kolla-images.py:247-264 | a file without problems has the default, no empty key, no colon in a key and no empty tag |
| TagValidation.StampedTwoTags | tools/kolla-images.py:249-252 | the pattern of release, distro and timestamp refuses the empty tag and accepts different tags for a supported distro |
| TagVarLines.ReadPrinted | tools/kolla-images.py:399-404 | a grammar for lines of any variable, dictionary, key, index and fall-back reads a printed line as an override of that tag variable: its own key of `kolla_image_tags`, by the variable for distro and version, and the tag variable of the fall-back |
| TagVarLines.ListTagVars | tools/kolla-images.py:395-407 | prints one line for each key in file order, each falling back to the parent without regard to distro |
| TagVarLines.ReadAllVars | tools/kolla-images.py:395-407 | read by that grammar, the printed lines define exactly the keys of the file, each with its own key and fall-back |
| TagHierarchy.ParentLower | tools/kolla-images.py:171-193 | each step to a parent goes down in (hop still ahead, length), though an exception hop can make the name longer |
| TagHierarchy.ChainAcyclic | tools/kolla-images.py:171-193 | the chain of parents of any container ends at `openstack` and never repeats a name |
| TagHierarchy.SearchAgain | tools/kolla-images.py:181-193 | a longest-prefix search among fewer names can go on from the result of a search among more |
| TagHierarchy.WalkResolves | tools/kolla-images.py:171-208 | following fall-backs through two different sets of names stops where the direct search does, where no exception is shadowed |
| TagHierarchy.ShadowWitness | tools/kolla-images.py:174-193 | a shadowed exception is told apart by tagging one name besides the default |
| Deployment.CompareParents | tools/kolla-images.py:357-361 | lists exactly the names whose expected parent is not the computed one, in file order |
| Deployment.CheckHierarchy | tools/kolla-images.py:355-367 | reports exactly the mismatches in file order, and accepts the hierarchy if and only if there are none |
| Deployment.AcceptedIsParent | tools/kolla-images.py:355-361 | an accepted hierarchy gives every name the parent that the search on names gives |
| Deployment.DefinedLinked | tools/kolla-images.py:395-407 | overrides fall back within the tags file, other variables within the hierarchy |
| Deployment.EvaluateWalks | tools/kolla-images.py:399-404 | evaluating the chain of defaults gives the tag of the variable where the chain stops, or nothing |
| Deployment.GetTagResolves | tools/kolla-images.py:202-208 | the script's tag is that of the container itself or of its parent, the same lookup error included |
| Deployment.DeployTagWalks | tools/kolla-images.py:395-407 | the deployed tag, from the printed text on, is the tag where the chain of variables stops |
| DeployAgreement.NoShadowAgrees | tools/kolla-images.py:171-208 | deployed and resolved tag agree for each tags file and container of an accepted hierarchy without a shadowed exception |
| DeployAgreement.DeployAgreesIff | tools/kolla-images.py:342-407 | for an accepted hierarchy they agree on all tags files that pass `validate` and have a default for the distro if and only if no exception is shadowed |
| DeployAgreement.DeployAgreesOrBothFailIff | tools/kolla-images.py:342-407 | they agree, or fail together, on all tags files that pass `validate` if and only if neither an exception nor the default is shadowed |
| DeployAgreement.ShadowedExceptionDiffers | tools/kolla-images.py:171-208 | a shadowed exception yields a tags file that passes `validate` and a container with two different tags |
| DeployAgreement.ShadowedDefaultDiffers | tools/kolla-images.py:171-208 | a shadowed default yields a tags file that passes `validate` and a container for which the two disagree |
| DeployExample.AcceptedHierarchyDisagrees | tools/kolla-images.py:245-407 | one accepted hierarchy and tags file that passes `validate` for which Ansible deploys another tag than the script finds |
| DeployExample.DefaultlessFileDisagrees | tools/kolla-images.py:245-407 | one accepted hierarchy and tags file without a default tag for which the script finds a tag and Ansible none |
| TagEdits.RedundantOverrideIff | tools/kolla-images.py:171-208 | for any set of containers, deleting an override changes no tag if and only if its parent has the same tag, where the container itself is in the set, and its prefix has, where another one takes the tag |
| TagEdits.OrdinaryOverrideIff | tools/kolla-images.py:171-208 | for a variable that is no exception container its parent's tag alone decides |
| DeployExample.DroppedOverrideMatters | tools/kolla-images.py:171-208 | an override of `tgtd` that repeats its parent's tag: dropping it keeps the tag of `tgtd` and changes that of a container named after it |
| TagEdits.TagBelow | tools/kolla-images.py:171-208 | a container that takes the tag of a variable gets the tag of its prefix once that is deleted, and any other keeps its tag |
| TagEdits.OverrideReaches | tools/kolla-images.py:171-208 | setting a tag gives it to exactly the containers the variable captures, and leaves every other container's tag, or error, as it was |
| ImageTags.AddContainerTags | tools/kolla-images.py:219-223 | appends the tags not yet listed in order, and raises with the error of the first container that has none |
| ImageTags.AddTagsExact | tools/kolla-images.py:219-223 | the list keeps what it had, has no duplicates and holds exactly the tags of the containers besides; raises if and only if one has none |
| ImageTags.AddDistroTags | tools/kolla-images.py:217-223 | carries the visits on with every image of one distro, in order |
| ImageTags.GatherExact | tools/kolla-images.py:215-224 | the table gathered in order is exact, for any sequence of visits |
| ImageTags.UnderscoredTagListed | tools/kolla-images.py:165-224 | where no visit raises, the list of a built image holds the tag of the container named after it with underscores |
| ImageTags.GetTags | tools/kolla-images.py:211-224 | an image is a key if and only if it is built on some distro; its list has no duplicates and is, as a set, all tags deployed, in the order met; raises if and only if some visit does, with the error of the first |
| PulpSync.ContainerRepos | etc/kayobe/pulp.yml:772-782 | one repository for each built image in order, with its tags; fails if and only if a dictionary entry it looks up is missing |
| PulpSync.ContainerDistributions | etc/kayobe/pulp.yml:790-799 | one distribution for each built image in order, of the repository of that name |
| PulpSync.KeptConcat | etc/kayobe/pulp.yml:774-775 | the images a template goes over are kept one by one, in their order |
| PulpSync.SyncRepositories | etc/kayobe/pulp.yml:772-782 | from the tags file on, no lookup in the template fails, and every image is synced with exactly the tags deployed on some listed distro, each once |
| PulpSync.SyncCoversDeployment | etc/kayobe/pulp.yml:774-780 | the tags synced for an image include the one each of its containers is deployed with |
| ScanVerdict.GroupsExact | tools/scan-images.sh:103 | one group for each ID, in ascending order, with the matches of the ID in their order |
| ScanVerdict.BeforeIff | tools/scan-images.sh:103 | the order of IDs: a prefix first, otherwise by the first character that differs |
| ScanVerdict.SurvivesIff | tools/scan-images.sh:100-102 | a match survives if and only if it is high or critical, its package name begins with none of three prefixes and its type not with `linux-kernel` |
| ScanVerdict.SummaryExact | tools/scan-images.sh:99-117 | a row for an ID if and only if a match with that ID survives the filters, with all its survivors |
| ScanVerdict.CleanIffNoneSurvives | tools/scan-images.sh:204-217 | an image with findings is clean if and only if no match survives the filters |
| ScanVerdict.CriticalIff | tools/scan-images.sh:119-129 | it is critical if and only if the first survivor of some ID is, or other text of a row says so |
| ScanVerdict.VerdictIff | tools/scan-images.sh:182-218 | for any report, without its summary: failed without SBOM, with a code other than 0 and 2, or with a report that cannot be processed; clean with code 0 or where no match survives; critical where the first survivor of an ID says so in its own fields, or any survivor in its name or a path; high otherwise |
| ScanVerdict.CriticalRightIff | tools/scan-images.sh:99-129 | the verdict is critical exactly when a surviving match is, if and only if one that is shows in its row or other text stands in for it, and no other text says so where none is |
| ScanVerdict.CriticalMatchMissed | tools/scan-images.sh:103-129 | a report with a critical match behind a high one of the same ID is only high |
| ScanVerdict.HighMatchMistaken | tools/scan-images.sh:103-129 | a report with high matches only is critical for the name of a package |
| ScanDispatcher.InvStep | tools/scan-images.sh:221-249 | every step keeps conservation, faithful files, the bound on running scans, and when the loop may be left |
| ScanDispatcher.Reachable | tools/scan-images.sh:221-249 | so they hold in every reachable state, over every interleaving |
| ScanOutcome.AtMostOneLateStart | tools/scan-images.sh:233-241 | over every run at most one scan starts after the first failure is recorded |
| ScanOutcome.LateStartPossibleIff | tools/scan-images.sh:233-241 | a run with one such start exists if and only if two scans may run at once and an image before the last one fails |
| ScanOutcome.RunsAreBounded | tools/scan-images.sh:230-249 | every step leaves less work, and no run is longer than five steps for each image, and three |
| ScanOutcome.CompleteExits | tools/scan-images.sh:230-249 | with at least one slot, a run that cannot go on has exited |
| ScanOutcome.ExitCodeDetermined | tools/scan-images.sh:242-249 | the exit code is 1 if and only if some image of the list has a failing scan, also when that image was never started |
| ScanOutcome.ReportsDecideExit | tools/scan-images.sh:182-249 | a run that exits does so with 1 if and only if some report fails, and with 0 if and only if every one has its SBOM and code 0, or code 2 and was processed |
| ScanOutcome.FilesOnSuccess | tools/scan-images.sh:188-249 | after exit 0 each file holds exactly the images with its verdict, once |
| ScanOutcome.OutcomeIndependentOfInterleaving | tools/scan-images.sh:230-249 | two complete runs agree on the exit code and, on success, on the contents of every file |
| ScanOutcome.ImagesAccountedFor | tools/scan-images.sh:188-249 | after exit 0 the list of names is, with repetitions, the clean, high and critical files together |
| ScanOutcome.CleanFileExact | tools/scan-images.sh:189-217 | after exit 0 an image is in the clean file if and only if grype found nothing or no match survives |
| ScanOutcome.SevereFilesExact | tools/scan-images.sh:204-218 | after exit 0 the critical and the high file hold exactly the images whose matches survive and say so, or do not |
| PyText.SplitJoin | etc/kayobe/ansible/scripts/smartmon.py:510 | splitting at a separator undoes joining with it |
| PyText.TrimLower | etc/kayobe/ansible/scripts/smartmon.py:143-149 | trimming and lowering commute |
| CamelCase.SnakeIdempotent | etc/kayobe/ansible/scripts/smartmon.py:255-261 | converting a name twice is converting it once |
| CamelCase.SnakeLength | etc/kayobe/ansible/scripts/smartmon.py:255-261 | the name grows by the number of capitals after its first character |
| CamelCase.SnakeInvertibleIff | etc/kayobe/ansible/scripts/smartmon.py:255-261 | one function undoes the conversion exactly for names without a capital first letter or an underscore before a small letter |
| CamelCase.SnakeInjective | etc/kayobe/ansible/scripts/smartmon.py:255-261 | no two such names are converted to the same one |
| MetricText.ParsedIsClean | etc/kayobe/ansible/scripts/smartmon.py:502-517 | whatever the line, the parsed labels hold no comma, closing brace or quote at an end |
| MetricText.RenderTwo | etc/kayobe/ansible/scripts/smartmon.py:289-294 | the text of a metric with two labels, spelled out |
| MetricText.RoundTripIff | etc/kayobe/ansible/scripts/smartmon.py:501-518 | a printed line is split into what was printed if and only if the metric is clean, for any number of labels |
| MetricExport.ParseLabels | etc/kayobe/ansible/scripts/smartmon.py:507-517 | the loop over pieces reads the labels the recursive reader reads |
| MetricExport.ParseLine | etc/kayobe/ansible/scripts/smartmon.py:502-517 | one line is split as the specification says, with its error |
| MetricExport.WriteMetrics | etc/kayobe/ansible/scripts/smartmon.py:499-524 | the registry is the fold of all lines, or the error of the first line that cannot be set |
| MetricExport.ExportFaithfulIff | etc/kayobe/ansible/scripts/smartmon.py:499-524 | the registry holds the last value for every name and labels, and nothing else, if and only if all metrics are clean and labelled, those of one name share their keys, and gauges may have them |
| MetricErrors.ParseRendered | etc/kayobe/ansible/scripts/smartmon.py:501-518 | any printed line is split; without braces in its values the number is as printed and the keys are the printed ones, each followed by those of the pieces after a comma in its value that have a `=`, and with a brace the text read for the number holds one |
| MetricErrors.ExportRaisesIff | etc/kayobe/ansible/scripts/smartmon.py:499-524 | the export raises if and only if a label value has a closing brace, two lines of one name are read with different numbers of labels, or the keys read from the first line of a name are refused |
| MetricErrors.SilentlyAlteredIff | etc/kayobe/ansible/scripts/smartmon.py:499-524 | it succeeds and exports something else if and only if none of these is so and a value has a comma, or a quote at an end |
| MetricErrors.BraceRaises | etc/kayobe/ansible/scripts/smartmon.py:499-524 | a disk named `a}` makes the export raise |
| MetricErrors.ExtraLabelRaises | etc/kayobe/ansible/scripts/smartmon.py:499-524 | disks named `A` and `A,x=1` together make the export raise |
| MetricErrors.CommaAlters | etc/kayobe/ansible/scripts/smartmon.py:499-524 | a disk named `A,B` is exported as something else without an error |
| SmartNames.MetricNameInjective | etc/kayobe/ansible/scripts/smartmon.py:14-73 | no whitelisted attribute has the name of a fixed metric or of another attribute |
| SmartNames.MetricNamePlain | etc/kayobe/ansible/scripts/smartmon.py:14-73 | no metric name holds a brace |
| SmartReports.StatusNames | etc/kayobe/ansible/scripts/smartmon.py:293-319 | the names under which the status metrics are reported |
| SmartReports.NvmeNames | etc/kayobe/ansible/scripts/smartmon.py:433-445 | the names of the capacities and the rating |
| SmartValues.NumericValue | etc/kayobe/ansible/scripts/smartmon.py:408-413 | the loop returns the first number of the sources |
| SmartValues.CoerceIff | etc/kayobe/ansible/scripts/smartmon.py:89-108 | a number is itself, text what it reads as, and an object its `value`, or else its `raw` |
| SmartValues.SourcesInOrder | etc/kayobe/ansible/scripts/smartmon.py:419-423 | a namespace gives its capacity, or else its size, or else its utilization |
| SmartValues.FirstNumberIsFirst | etc/kayobe/ansible/scripts/smartmon.py:408-413 | that is the number of the first source that gives one, and none if no source does |
| SmartValues.NamespaceCapacity | etc/kayobe/ansible/scripts/smartmon.py:415-425 | the loop over namespaces finds the first number of all their fields in order; raises if and only if a malformed namespace comes before it |
| SmartValues.LoadRatings | etc/kayobe/ansible/scripts/smartmon.py:140-151 | every key maps to the rating of the last valid entry for it, and no other key is there |
| SmartValues.RatedDwpdIsLastRating | etc/kayobe/ansible/scripts/smartmon.py:216-223 | looking a model up gives the last valid rating of that trimmed name in any case, else 1.0 |
| SmartValues.RatedDwpdExact | etc/kayobe/ansible/scripts/smartmon.py:140-223 | loading any list and looking a model up gives the rating of the last entry whose name is the same but for blanks and case, else 1.0 |
| SmartDevices.FailedAttributes | etc/kayobe/ansible/scripts/smartmon.py:177-186 | the attributes with a meaningful failure mark, in order, and no others |
| SmartDevices.SmartHealth | etc/kayobe/ansible/scripts/smartmon.py:189-213 | healthy if and only if passed, or warned for historical temperature breaches alone, and for at least one |
| SmartDevices.ParseDeviceInfo | etc/kayobe/ansible/scripts/smartmon.py:263-321 | emits the samples of the specification, in order |
| SmartReports.InfoReported | etc/kayobe/ansible/scripts/smartmon.py:277-321 | the samples of a device are its information and exactly its status: availability always, enabled when capable, health and past heat when capable and assessed, temperature when there is one, each with its value |
| SmartReports.HealthyIff | etc/kayobe/ansible/scripts/smartmon.py:158-213 | healthy if and only if passed, or warned with some attribute marked and all marked ones past heat, marks and names spelled out |
| SmartReports.LabelsAre | etc/kayobe/ansible/scripts/smartmon.py:277-342 | the labels of each line: disk, serial number in small letters, and interface, `None` or empty where it is missing |
| SmartReports.InfoLabelsAre | etc/kayobe/ansible/scripts/smartmon.py:278-289 | the eight labels of the information line, sorted by key |
| SmartDevices.ParseIfAttributes | etc/kayobe/ansible/scripts/smartmon.py:323-357 | emits one sample for each public, whitelisted, numeric attribute, in order |
| SmartReports.IfReported | etc/kayobe/ansible/scripts/smartmon.py:345-357 | a sample is emitted if and only if it is that of a visible attribute with a whitelisted converted name and a number |
| SmartReports.AttrValuesLast | etc/kayobe/ansible/scripts/smartmon.py:377-385 | a converted name has a value if and only if a visible attribute has it, and the last such attribute gives it |
| SmartDevices.DataUnitsReported | etc/kayobe/ansible/scripts/smartmon.py:447-467 | the terabytes are reported if and only if a source gives a number, the raw count if and only if besides pySMART lacks the attribute, with which values, and nothing else |
| SmartReports.CapacitiesReported | etc/kayobe/ansible/scripts/smartmon.py:433-445 | the total is reported under two names and the unallocated capacity under its own, each if it is known, and the rating always |
| SmartReports.CapacitySources | etc/kayobe/ansible/scripts/smartmon.py:427-443 | the total comes from pySMART, else the report, else the user capacity, else the namespaces; the unallocated capacity from pySMART or the report |
| SmartReports.HealthReported | etc/kayobe/ansible/scripts/smartmon.py:480-487 | a health log entry is reported if and only if pySMART lacks the attribute and the entry is a number |
| SmartReports.NvmeReported | etc/kayobe/ansible/scripts/smartmon.py:427-489 | the NVMe samples are the capacities, the two data units and six named health log entries |
| SmartDevices.CollectNvmeMetrics | etc/kayobe/ansible/scripts/smartmon.py:360-489 | emits the samples of the specification; raises if and only if the report is no JSON object or a malformed namespace is met before a capacity, and with which error |
| SmartDevices.NamespacesLast | etc/kayobe/ansible/scripts/smartmon.py:415-432 | the early-ended namespace loop stands in for all namespace fields at the end of the fall-back chain |
| SmartExport.CollectAll | etc/kayobe/ansible/scripts/smartmon.py:541-578 | the device loop emits the samples of the version and of all reported devices, or ends with the error of the first device that raises |
| SmartReports.InputReported | etc/kayobe/ansible/scripts/smartmon.py:545-578 | a device with serial number and assessment reports its timestamp and 1 or 0 for active, and when active everything else; any other reports nothing |
| SmartReports.IsNvmeIff | etc/kayobe/ansible/scripts/smartmon.py:574-576 | an NVMe device is one by interface, or by the name after its last slash |
| SmartExport.DeviceIdsIff | etc/kayobe/ansible/scripts/smartmon.py:572-578 | the three emitters overlap in no metric, except through attributes whose converted names coincide |
| SmartRegistry.EmittedOnceIff | etc/kayobe/ansible/scripts/smartmon.py:263-489 | a device's lines have distinct names if and only if no two of its emitted attributes share a converted name |
| SmartRegistry.AllSamplesFit | etc/kayobe/ansible/scripts/smartmon.py:263-578 | every metric emitted has the key sequence of its name, and its label values pass a check if and only if the texts of the version and of the reported devices do, for any check |
| SmartRun.RunScript | etc/kayobe/ansible/scripts/smartmon.py:529-580 | device loop, printing and writing together give the outcome of the run: the registry, or the error of the first device or line that raises |
| SmartRun.RunFaithfulIff | etc/kayobe/ansible/scripts/smartmon.py:499-580 | for any device list, the run ends without an error and the registry says what was emitted if and only if no device raises and the texts of the version and of the reported devices are clean |
| SmartLookup.InRegistry | etc/kayobe/ansible/scripts/smartmon.py:499-580 | after a faithful run the registry shows each sample's own value, if its disk does not come again and the device does not contradict itself |
| SmartLookup.StatusInRegistry | etc/kayobe/ansible/scripts/smartmon.py:293-319 | so it shows for every reported, active disk that does not come again whether SMART is available, enabled, the disk healthy or failed for past heat, and its temperature |
| SmartRun.RunRaisesIff | etc/kayobe/ansible/scripts/smartmon.py:499-580 | for any device list, the run raises if and only if a device raises, a text has a closing brace, or the keys read from the lines of a metric differ in number or are refused |
| SmartRun.SilentlyWrongIff | etc/kayobe/ansible/scripts/smartmon.py:499-580 | a run without an error leaves something else than was emitted if and only if a text has a comma, or a quote at an end |
| HostGroups.GroupHostvarsByVar | etc/kayobe/ansible/filter_plugins/filters.py:14-45 | every group is non-empty and lists the hosts of its value in input order, and groups come in the order of their first hosts; fails at the first host without the variable, the subkey or a hashable value, and only then |
| HostGroups.GroupKeyIff | etc/kayobe/ansible/filter_plugins/filters.py:36-43 | a host is grouped under its value, or its entry for the subkey, which is no list and no dictionary; not found if and only if the variable or the subkey is missing |
| HostGroups.OrderKept | etc/kayobe/ansible/filter_plugins/filters.py:36-41 | groups grow at their ends, and new groups come last, as hosts are added |
| HostGroups.GroupsPartition | etc/kayobe/ansible/filter_plugins/filters.py:34-45 | every host is in the group of its value once, and in no other group |
| HostGroups.UngroupedIsInverse | etc/kayobe/ansible/filter_plugins/filters.py:34-45 | flattening the groups restores each host's value |
| HostGroups.AddEntry | etc/kayobe/ansible/filter_plugins/filters.py:69-85 | one host's entry is its value, or an empty list for a falsy one, whatever the marker loop wrote |
| HostGroups.GetHostvarsByHost | etc/kayobe/ansible/filter_plugins/filters.py:47-87 | every host gets its entry; fails at the first host for which the filter raises, and only then |
| HostGroups.HostEntryIff | etc/kayobe/ansible/filter_plugins/filters.py:70-85 | the entry of a host is its value, or an empty list if and only if that is null, 0, or an empty text, list or dictionary |
| HostGroups.EntriesExact | etc/kayobe/ansible/filter_plugins/filters.py:69-87 | so for every host where the filter succeeds |
| HostGroups.FiltersAgreeIff | etc/kayobe/ansible/filter_plugins/filters.py:14-87 | where both filters succeed they assign the same values to hosts if and only if every grouped value is truthy |

## Left out

- TagVarLines.ReadPrinted: the grammar covers lines of a lookup with a `default`; YAML and Jinja beyond that are not modelled, and an override is taken to win over a role default.
- TagVarLines.ReadAllVars: the grammar is the same.
- TagValidation.ValidateEntries: the distros of one variable are visited in any order, so the order of their problems is not stated.
- TagValidation.Validate: the pattern of a tag, which holds the OpenStack release, is a parameter; the order of the problems and the messages printed are not stated.
- TagValidation.StampedIff: takes the release as plain text and ASCII digits, and no newline at the end.
- Deployment.CheckHierarchy: starts from the map of names to parents; the `git grep`, the two regular expressions that build it and the removal of `octavia_amp_image_tag` are not modelled.
- DeployAgreement.DeployAgreesIff: names of the hierarchy are matches of `[a-z0-9_]+`, as the regular expression that reads them makes them.
- ImageTags.GetTags: the image lists read from `pulp.yml` are parameters.
- PulpSync.ContainerRepos: the settings that all repositories share are not modelled, and the image filters are any list drawn from the images.
- PulpSync.ContainerDistributions: the settings that all distributions share are not modelled.
- ScanVerdict.CriticalIff: the commas, semicolons and quotes around a row's cells, and the removal of repeated cells, are not modelled, as they neither make nor break the word that is searched for.
- ScanVerdict.SummaryExact: a report that jq cannot process is a flag of the report, not derived from its text.
- ScanDispatcher.Reachable: the verdict of each image is fixed before the run, and `jobs` and `wait` are the count of running scans; signals to the script are not modelled.
- ScanOutcome.CompleteExits: requires at least one slot, since with none the slot loop never ends.
- PyText.TrimLower: lowering maps ASCII letters only.
- CamelCase.SnakeIdempotent: lowering maps ASCII letters only.
- CamelCase.SnakeLength: lowering maps ASCII letters only.
- CamelCase.SnakeInvertibleIff: lowering maps ASCII letters only.
- CamelCase.SnakeInjective: lowering maps ASCII letters only.
- SmartValues.RatedDwpdExact: lowering maps ASCII letters only.
- SmartValues.RatedDwpdIsLastRating: lowering maps ASCII letters only, and ratings are real numbers, so infinities and rounding are not modelled.
- SmartDevices.CollectNvmeMetrics: the report is a parameter, JSON or not; how smartctl is run is not modelled.
- MetricExport.WriteMetrics: prometheus_client is only its rule that labels fit the gauge; which names it accepts is a parameter.
- MetricExport.ExportFaithfulIff: the output format of prometheus_client is not modelled.
- SmartRun.RunFaithfulIff: printed numbers are assumed to have no blanks around them and to be read as numbers again, a text with a closing brace not to be read as a number, and the script's own names to be accepted.
- SmartRun.RunRaisesIff: the same; the agreement of lines in their number of labels is stated on the metrics, not on the texts.
- HostGroups.FiltersAgreeIff: values are null, real numbers (with booleans as 0 and 1), text, lists and dictionaries; a NaN is not modelled.
- Downloads, registries, subprocesses, clocks and files: `check-tags`, `check-image-map`, syft, grype and smartctl are inputs or absent.
- The generation of the grype configuration and the list of images to scan: straight-line text processing.
- `tools/merge.py`, the other shell tools, playbooks, terraform and release notes: command sequences and data.
