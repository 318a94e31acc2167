# Verified model of the homelab automation

This project models the decision code that the homelab repository runs between its I/O calls, and
proves what that code promises, for every input and over whole runs. One module stands for one
source file or one part of it:

| module | models |
|---|---|
| `Substitution`, `SubstitutionTokens`, `SubstitutionTheorems` | private literals out of a text, placeholders in, foreign references escaped, and what Flux's postBuild substitution makes of the result |
| `Documents`, `DocumentSubstitution` | the same walk over the dicts and lists of a parsed manifest, changed in place on the heap |
| `PromotedSecrets` | Secrets turned into placeholders, written only once Flux would put exactly their values back |
| `StaleInterfaces` | which of a node's NetBox interfaces may go, and in which order |
| `Json`, `KeyVaultFacts` | NetBox's facts into Key Vault, with the fingerprint tag that lets a run skip reading a value |
| `PiholeSync`, `DnsWebhook`, `DnsNames` | the DNS reconcilers: Pi-hole's lines, NetBox DNS's records, the names on NetBox's addresses |
| `Relink` | moved book files matched by content hash and relinked in one guarded transaction |
| `Ownership`, `FileTracker`, `CaptureRun`, `CaptureFiles` | which files a phase owns, which it sweeps, what a capture run keeps when a listing fails, and what it leaves in each file |
| `Redaction`, `RedactionTheorems`, `RedactionExactly`, `RedactionInPlace` | credential redaction in three passes over a manifest, against the detectors |
| `FluxOwner` | the walk up Flux Kustomizations to an object's entrypoint |
| `Text`, `Sorting` | the Python string, `sorted` and set operations the scripts use |
| `WebSocket` | Home Assistant's WebSocket: one frame out, fragmented messages in (RFC 6455, sections 5.1 to 5.5) |
| `KeaConverter`, `Addresses`, `Numbers`, `Supernet` | dnsmasq's DHCP setup converted to Kea's, and the smallest prefix that holds given addresses |

Where the source changes state step by step, so does the model: methods with loops, classes with
fields, in-place updates of a heap of nodes. Each such method is proved equal to a specification
function, and the theorems are proved about that function.

## What is assumed

Each outside system has a one-line behaviour, written as a function or a class of the model:

- Flux (`Substitution.Expand`): `$${` gives `${`, `${NAME}` gives NAME's value, which is not expanded
  again; an unknown name or an unclosed `${` fails the Kustomization. Its variables are taken to be the
  map capture builds from cluster-settings and cluster-secrets, the Secret's value over the ConfigMap's.
- Key Vault (`KeyVaultFacts.Store`): versions are kept, the newest is current, a tag change leaves the
  value. HMAC-SHA256 is injective and Python's json reads back what it writes (`KeyVaultFacts.Assumed`).
- Pi-hole (`PiholeSync.PiHole`): DELETE drops a line, PUT puts it in, a line is held once.
- NetBox DNS (`DnsWebhook`): creating stores the record as sent, deleting drops the id.
- MariaDB (`Relink`): one transaction, all or nothing; an update counts its matched rows, or only the
  changed ones, as the connection is set up.
- Grimmory's content hash, the five credential patterns and the Shannon entropy test are parameters.
  Of the patterns one thing is assumed: the placeholder matches none (`Redaction.DetectorsOk`).
- `str.lower`, `str.upper` and `str.strip` are those of ASCII.

## What turned out to need a condition

Several promises hold only under a condition the code does not check. Each is stated as a named
condition, with a proof of when exactly the promise holds or with the input that breaks it:

- The Flux round trip needs more than literals clear of foreign references: no literal may occur in the
  placeholder of one that is replaced before it (`RoundTripExactlyWhen`, `RoundTripFails`).
- It also needs the values Flux holds. A run replaces values that are still pending, and rotated ones,
  and counts their names as known (capture.py:108, capture.py:674). A manifest comes back exactly when
  every entry that replaces something in it is live; one with a pending value is refused by Flux, and
  one with a rotated value gets the old one (`RoundTripWhileLive`, `LiteralOnItsOwn`). Only rotated
  values of which one is shorter and another longer than its literal can make up for each other
  (`TwoRotatedValuesCancel`).
- The delete loop of `stale_interfaces` ends exactly when no removable interfaces refer to each other
  in a ring (`EndsExactlyWhenAcyclic`); two gone interfaces that name each other keep it running
  (`TwoPointAtEachOther`).
- A name in the Key Vault map that changes from giving data to giving plain text can be skipped though
  its held value differs (`SkipAcrossKinds`): one that holds "{ }" is skipped for "{}" (`LayoutIsSkipped`).
- `zone_for` compares lengths with a zone name's trailing dots still on. It picks the longest zone for
  every host exactly when no zone's spelling is as long as a longer zone below it (`LongestExactlyWhen`).
  One trailing dot never matters. Two could (`TwoTrailingDotsHide`); that is a boundary of the function,
  since nothing says NetBox DNS can hold such a name.
- `endpoints` tells names as they are spelled, `plan` finds them in lower case. Of an endpoint that isn't
  skipped ExternalDNS is told exactly the targets that were held by a record spelled in lower case, or
  that had to be created in a zone spelled so (`EndpointsAfter`). In a zone called "C" it is told of
  "a.C" and never of the "a.c" it asked for (`CapitalZoneIsNotTold`, `CapitalZoneIsApplied`).
- A host called "@" directly under a zone reads back as the zone itself (`FqdnInvertsRelative`).
- A moved book that leaves a file behind in another library path breaks that file, since only planned
  files are checked (`OthersResolveExactlyWhen`, `SiblingLost`). Where MariaDB counts only changed rows,
  a file moved to the same place in another library can never be relinked (`SamePlaceInAnotherLibrary`).
- The guard of a relinking update looks at the file's row alone. After a commit a planned row leads to its
  file exactly when, at the updates, it belongs to a live book that goes to a library with such a file at
  the planned place (`RestoredExactlyWhen`). A book deleted in between lets the run commit, and its
  read-back succeed, with no such file left in Grimmory (`DeletedMeanwhile`).
- In a promoted release the two phases' owners overlap on `app/helmrelease.yaml` and also on
  `app/ks.yaml`, because the last `*` of `kubernetes/prod/*/*/*/ks.yaml` crosses `app/`
  (`OwnersOverlapExactly`). ownership.py's docstring says no `*` can span a folder. Nothing capture
  writes there has either name (`WrittenManifestsAreNotGenerates`).
- A promoted Secret comes back exactly when no two of its non-empty keys share a variable with
  different values (`WrittenExpandsExactlyWhen`, and of the files a run writes
  `WrittenSecretComesBackExactlyWhen`).
- The pending list names a value of every Secret that is held back, whatever cluster-secrets holds,
  exactly when no two of the run's Secrets give one variable different values
  (`PendingTellsAllExactlyWhen`). Keys "." and "-" of one Secret name do (`DotAndDashShareAVariable`).
- `FluxOwnership.entrypoint` documents None for a chain that can't be resolved; the code gives the last
  but one name of such a chain, and None only for an unlabelled object or an unknown first Kustomization.
  Two Kustomizations of different names that applied each other give two different answers
  (`RingsDisagree`). What the Kustomizations below the end of a walk applied has one entrypoint exactly
  when the walk does not end by pointing back beyond the last but one, or all the names such a round can
  end in are the same (`OneEntrypointExactlyWhen`).
- The supernet loop never ends for one IPv4 and one IPv6 address (`MixedFamiliesNeverMeet`).
- `redact_credentials` leaves a document that is one bare string alone (`BareStringIsLeft`).
- A string is redacted exactly when a pattern matches it, it looks like entropy, or the key-name or env-var
  detector finds it in the document as it was (`RedactedExactly`): the env-var detector's only while the
  entry's name is kept. A name that is itself a credential is redacted first, and the value beside it then
  has no name that says so (`ValueBesideARedactedName`).

## Model

| member | source | states |
|---|---|---|
| SubstitutionTheorems.RoundTripWhileLive | scripts/k8s_backup/capture.py:105-108 | for every text of only foreign, unnested references and every list of literals clear of them and of earlier placeholders, pending and rotated ones included: Flux reads the escaped, substituted text exactly when it has every name the text uses; the text comes back when every entry used is live, and, unless rotated values differ from their literals in both directions, only then |
| SubstitutionTheorems.RoundTrip | scripts/k8s_backup/varsub.py:121-179 | so with nothing pending or rotated it always comes back, however many literals overlap |
| SubstitutionTheorems.LiteralOnItsOwn | scripts/k8s_backup/capture.py:674-674 | the input that shows it: a pending literal alone is refused by Flux, a rotated one comes back as the value Flux still holds |
| SubstitutionTheorems.TwoRotatedValuesCancel | scripts/k8s_backup/varsub.py:166-179 | two rotated values, one shorter and one longer, can spell the old text, so the lengths matter |
| SubstitutionTheorems.RoundTripExactlyWhen | scripts/k8s_backup/promote.py:101-118 | with plain distinct literals the round trip holds of every well-placed text if and only if no literal occurs in the placeholder of one replaced before it and every entry is live |
| SubstitutionTheorems.RoundTripFails | scripts/k8s_backup/varsub.py:131-136 | the text on which it fails otherwise: the earlier literal alone, which does not come back |
| SubstitutionTheorems.LiteralsGone | scripts/k8s_backup/varsub.py:121-179 | once the literals replaced are apart from the placeholders, the literal of no entry to replace occurs anywhere in a substituted text, whatever the text was |
| SubstitutionTheorems.OrderHolds | scripts/k8s_backup/varsub.py:128-136 | the entries applied are the listed ones with replace on, each as often as it is listed, and no other |
| SubstitutionTheorems.SettingsNeverMatter | scripts/k8s_backup/varsub.py:173-175 | an entry with replace off, anywhere in the list, changes no text |
| SubstitutionTheorems.NothingToReplace | scripts/k8s_backup/varsub.py:166-179 | a text without the literal of any entry to replace is left as it is |
| SubstitutionTheorems.PlainLiteralsApart | scripts/k8s_backup/varsub.py:121-136 | literals without `$`, `{`, `}` that occur in no placeholder meet that condition |
| SubstitutionTheorems.PlainApart | scripts/k8s_backup/varsub.py:131-136 | for a literal without those characters, sharing no character with a placeholder in any text means exactly not occurring in it |
| SubstitutionTheorems.WholeLiteralBecomesItsPlaceholder | scripts/k8s_backup/varsub.py:131-136 | longest first: a string that is itself a literal becomes that literal's own placeholder, though shorter literals occur in it |
| SubstitutionTheorems.LongestFirstSorted | scripts/k8s_backup/varsub.py:136-136 | the order is by falling length and holds every replaced entry as often as the list does |
| SubstitutionTheorems.LongestFirstStable | scripts/k8s_backup/varsub.py:136-136 | entries of one length keep their listed order |
| SubstitutionTheorems.PlaceholderBroken | scripts/k8s_backup/varsub.py:166-179 | a later literal found in a placeholder leaves a reference inside a reference, which Flux does not expand back |
| Substitution.ApplySubstitutionsText | scripts/k8s_backup/varsub.py:166-179 | the rebinding loop computes the substitution specified |
| DocumentSubstitution.ApplySubstitutions | scripts/k8s_backup/varsub.py:121-163 | the in-place walk leaves the document equal to mapping the text version over every string below the root, and counts exactly the strings changed |
| DocumentSubstitution.ReplaceAll | scripts/k8s_backup/varsub.py:142-145 | the inner loop with its `in` test equals replacing unconditionally |
| DocumentSubstitution.SettingsNeverMatter | scripts/k8s_backup/varsub.py:128-130 | an entry with replace off, anywhere in the list, changes no document and no count |
| DocumentSubstitution.NothingToReplace | scripts/k8s_backup/varsub.py:121-163 | a document in whose strings no literal to replace occurs is left as it is, with no string counted |
| DocumentSubstitution.TouchedAreDiffering | scripts/k8s_backup/varsub.py:121-163 | the count is how many strings of the document before and after differ |
| DocumentSubstitution.LiteralsGoneFromDocument | scripts/k8s_backup/varsub.py:121-163 | the literal of no entry to replace is left in any string of any document |
| DocumentSubstitution.DocumentRoundTrip | scripts/k8s_backup/promote.py:104-118 | a document captured and escaped comes out of Flux string for string as it was when every entry its strings use is live, and, unless rotated values differ in both directions, only then |
| PromotedSecrets.NameIsValid | scripts/k8s_backup/promote.py:259-268 | every placeholder names a valid Flux variable, for every namespace, Secret name and key |
| PromotedSecrets.NameSpells | scripts/k8s_backup/promote.py:259-268 | a variable's name spells the Secret and its key, upper case, with an underscore for anything but letters and digits |
| PromotedSecrets.ShareExactly | scripts/k8s_backup/promote.py:259-268 | two keys of a Secret share a variable exactly when they differ in nothing but case and in which other characters they hold |
| PromotedSecrets.TemplatedSecret | scripts/k8s_backup/promote.py:271-298 | the loop over the sorted keys builds the specified manifest data and value map |
| PromotedSecrets.ValuesAre | scripts/k8s_backup/promote.py:278-285 | a variable stands for the value of one of the non-empty keys that share it, and for no other |
| PromotedSecrets.WrittenExpandsExactlyWhen | scripts/k8s_backup/capture.py:796-816 | a written manifest has the Secret's keys, and every one of them expands to its own value, if and only if no two keys share a variable with different values |
| PromotedSecrets.WrittenValue | scripts/k8s_backup/capture.py:797-803 | in a written manifest every value expands: an empty one to nothing, another to the value of a key sharing its variable |
| PromotedSecrets.Prepare | scripts/k8s_backup/capture.py:729-764 | the loop over a run's Secrets computes the templates and the pending list |
| PromotedSecrets.HeldBackExactlyWhenPending | scripts/k8s_backup/capture.py:758-763 | while the run's Secrets agree, a Secret is held back exactly when one of its values is pending |
| PromotedSecrets.PendingTellsAllExactlyWhen | scripts/k8s_backup/capture.py:752-763 | for any Secrets of a run: each is held back exactly when one of its values is pending, whatever is live, if and only if no two give one variable different values |
| PromotedSecrets.DotAndDashShareAVariable | scripts/k8s_backup/promote.py:264-268 | Secrets that do exist for every name: keys "." and "-" give one variable |
| StaleInterfaces.StaleInterfaces | scripts/netbox_seed.py:342-374 | for interfaces whose removable ones are acyclic: the order holds exactly the removable ones, each once and each after all that point at it; the kept list names exactly the gone ones that must stay, each with a true reason, by name |
| StaleInterfaces.SafeAfterEveryPrefix | scripts/netbox_seed.py:342-346 | after every prefix of a safe order no interface that is left points at a deleted one |
| StaleInterfaces.FixedPointIsStays | scripts/netbox_seed.py:356-365 | where the first loop stops changing, what it kept is exactly what stays: an address, a cable, still there, or reachable by references from one of those |
| StaleInterfaces.KeptReasons | scripts/netbox_seed.py:347-365 | that loop ends and gives everything that must stay one reason, and nothing else |
| StaleInterfaces.ClosedHoldsStays | scripts/netbox_seed.py:356-365 | it is the least such set: any set closed under the references holds all of it |
| StaleInterfaces.DeleteOrder | scripts/netbox_seed.py:366-372 | the layered loop ends and puts every removable interface after all that point at it |
| StaleInterfaces.EndsExactlyWhenAcyclic | scripts/netbox_seed.py:368-372 | the layered loop ends if and only if no removable interfaces refer round in a ring |
| StaleInterfaces.TwoPointAtEachOther | scripts/netbox_seed.py:354-372 | an input on which it never ends: two gone interfaces that point at each other, both of which may go |
| StaleInterfaces.BackwardsComesRound | scripts/netbox_seed.py:369-370 | among finitely many interfaces each pointed at by another, some ring exists |
| KeyVaultFacts.SkippingIsSafe | scripts/keyvault_facts.py:525-623 | from an untagged Key Vault, after any sequence of hand edits, deletions, key changes and earlier runs' writes, a run that skips by fingerprint makes the same calls, ends with the same Key Vault, stops at the same point and gives the same verdict on every name as one that reads every value, but that it can still tell agreement where the other cannot read |
| KeyVaultFacts.FastRunIsFullRun | scripts/keyvault_facts.py:573-597 | the same for any Key Vault whose tags are truthful |
| KeyVaultFacts.HistoryKeepsTruthful | scripts/keyvault_facts.py:587-617 | every step of every history keeps every fingerprint tag truthful: its version agrees with what it was made from |
| KeyVaultFacts.RunIsAllowed | scripts/keyvault_facts.py:586-617 | a run only makes calls such a history allows |
| KeyVaultFacts.MatchMeansAgree | scripts/keyvault_facts.py:574-578 | a matching tag on a version means its value agrees, as data for JSON, with what NetBox gives now |
| KeyVaultFacts.SkipAcrossKinds | scripts/keyvault_facts.py:511-522 | if a name could change from data to text, a skip would be right exactly when the held text is in the run's own layout |
| KeyVaultFacts.LayoutIsSkipped | scripts/keyvault_facts.py:573-597 | an input: "{ }" tagged as data is skipped by a fast run that gives the text "{}", where a full run finds a difference |
| KeyVaultFacts.FingerprintInjective | scripts/keyvault_facts.py:331-334 | one fingerprint, one key, name and value, as names hold no NUL |
| KeyVaultFacts.AgreeIsAgrees | scripts/keyvault_facts.py:511-522 | `agree` says yes exactly when the held value is the same data (or text), and then lists no path |
| Json.PathsEmptyExactly | scripts/keyvault_facts.py:455-472 | no path is reported exactly when the two values are the same data, key order aside |
| Json.SameExactly | scripts/keyvault_facts.py:455-472 | which values are the same data: true is 1 and false is 0, lists agree place by place, objects key by key, nothing else crosses kinds |
| KeyVaultFacts.TakeTurn | scripts/keyvault_facts.py:569-617 | one name's turn: its outcome, whether the run stops, and Key Vault after it |
| KeyVaultFacts.ReadAndAct | scripts/keyvault_facts.py:579-617 | the read, tag or write half of a turn, with a write counted only when it reads back |
| KeyVaultFacts.RunVault | scripts/keyvault_facts.py:525-623 | the loop over the names: on a Key Vault with truthful tags it leaves what RunLeaves says (see RunEnds), the names changed and the exit code with it; and it is the run specified on any |
| KeyVaultFacts.RunEnds | scripts/keyvault_facts.py:569-623 | what a run leaves, said of the versions before and after: with a writer, a name that gives a value not held, is read and takes a write gets one new version of that value with its fingerprint; one that agrees without the right tag gets the tag on its current version; every other name keeps its versions; the exit code is 1 exactly when a name could not be made, read, set or read back, or a tag did not read back |
| KeyVaultFacts.ExitZeroMeansHeld | scripts/keyvault_facts.py:600-623 | a writing run that exits 0 leaves every name that gives a value with a current version that agrees with it |
| KeyVaultFacts.AnsweredIsHeld | scripts/keyvault_facts.py:579-615 | and whatever the exit code, a writing run that was not stopped leaves every name that could be read and written so |
| KeyVaultFacts.ChangedIsSet | scripts/keyvault_facts.py:606-616 | a name listed as changed gave a value that was not held, and its current version is that value, with the tag |
| KeyVaultFacts.RunKeepsUnmapped | scripts/keyvault_facts.py:569-572 | no run touches the versions of a name that is not mapped |
| KeyVaultFacts.TurnEnds | scripts/keyvault_facts.py:569-617 | one name's turn in the same terms, its outcome and whether it stops the run |
| PiholeSync.HostsConverge | docker/netbox/dns-sync/netbox_pihole_sync.py:117-147 | from any well-formed lines, a plan applied leaves nothing to remove or add |
| PiholeSync.InPairsAfter | docker/netbox/dns-sync/netbox_pihole_sync.py:123-147 | in NetBox's zones Pi-hole ends with exactly NetBox's pairs when deleting, and with those and its own when not |
| PiholeSync.OutPairsSurvive | docker/netbox/dns-sync/netbox_pihole_sync.py:137-146 | every name outside the zones keeps its address as spelled, also when its line is split, and none appears |
| PiholeSync.CnamesConverge | docker/netbox/dns-sync/netbox_pihole_sync.py:149-161 | the same three for the aliases |
| PiholeSync.AddedPairIs | docker/netbox/dns-sync/netbox_pihole_sync.py:137-147 | a pair is written only when NetBox wants it or a split line had it, and a stray one of the zones only with deleting off |
| PiholeSync.RecordNameInZone | docker/netbox/dns-sync/netbox_pihole_sync.py:85-102 | every name NetBox wants is lower case and in its zone |
| PiholeSync.RecordNameLabels | docker/netbox/dns-sync/netbox_pihole_sync.py:94-94 | the zone's labels for "@" or no name, and else the record's labels before the zone's |
| PiholeSync.InZoneByLabels | docker/netbox/dns-sync/netbox_pihole_sync.py:113-114 | a name is in a zone exactly when its last labels are the zone's, whole |
| PiholeSync.OnlyBelowADot | docker/netbox/dns-sync/netbox_pihole_sync.py:113-114 | a label, a dot and the zone is inside; letters glued to the zone's name are outside |
| PiholeSync.WordsJoin | docker/netbox/dns-sync/netbox_pihole_sync.py:124-124 | white space parts a line's words |
| PiholeSync.WordsOfLine | docker/netbox/dns-sync/netbox_pihole_sync.py:124-124 | the line a pair is written as reads back as that pair |
| PiholeSync.SplitNames | docker/netbox/dns-sync/netbox_pihole_sync.py:140-146 | the loop over a split line's names puts back and reports as specified |
| PiholeSync.PlanLine | docker/netbox/dns-sync/netbox_pihole_sync.py:123-146 | one line's turn |
| PiholeSync.PlanHosts | docker/netbox/dns-sync/netbox_pihole_sync.py:121-147 | the host half of `plan`: removals in Pi-hole's order, additions sorted, what a delete would remove |
| PiholeSync.PlanCnames | docker/netbox/dns-sync/netbox_pihole_sync.py:149-161 | the alias half: stray aliases in Pi-hole's order, removed when deleting is on and reported when not; additions sorted |
| PiholeSync.Plan | docker/netbox/dns-sync/netbox_pihole_sync.py:115-162 | both halves, and all that a delete would remove, sorted together |
| PiholeSync.SyncOne | docker/netbox/dns-sync/netbox_pihole_sync.py:214-246 | with apply, the Pi-hole ends as planned and the read-back finds nothing outstanding; without, nothing changes |
| DnsWebhook.TargetsAfter | kubernetes/prod/system/external-dns/external-dns/app/netbox-dns-webhook.py:142-161 | after applying a plan every endpoint that is not skipped has exactly its targets |
| DnsWebhook.ReplanIsNoOp | kubernetes/prod/system/external-dns/external-dns/app/netbox-dns-webhook.py:131-166 | planning the same changes again creates and deletes nothing |
| DnsWebhook.DeletedFor | kubernetes/prod/system/external-dns/external-dns/app/netbox-dns-webhook.py:151-164 | only a record with the owner mark is deleted, and only for an endpoint of its own name and type |
| DnsWebhook.OthersUntouched | kubernetes/prod/system/external-dns/external-dns/app/netbox-dns-webhook.py:151-164 | every record of another name or type is left, and none of another appears |
| DnsWebhook.SkipsStay | kubernetes/prod/system/external-dns/external-dns/app/netbox-dns-webhook.py:144-154 | applying changes neither which endpoints are skipped nor why |
| DnsWebhook.EndpointsAfter | kubernetes/prod/system/external-dns/external-dns/app/netbox-dns-webhook.py:116-166 | after applying a plan ExternalDNS is told, for every endpoint not skipped, exactly those of its targets that a record spelled in lower case held before, or that were created in a zone spelled so |
| DnsWebhook.CapitalZoneIsNotTold | kubernetes/prod/system/external-dns/external-dns/app/netbox-dns-webhook.py:101-128 | an input where none is: in a zone "C" the record of "a.c" is there with its target and is not told under that name |
| DnsWebhook.CapitalZoneIsApplied | kubernetes/prod/system/external-dns/external-dns/app/netbox-dns-webhook.py:131-166 | and a run that leaves it so |
| DnsWebhook.LongestExactlyWhen | kubernetes/prod/system/external-dns/external-dns/app/netbox-dns-webhook.py:90-98 | `zone_for` gives the longest zone holding the host, or none when none does, for every host and every choice from the zones, if and only if no zone's spelling, trailing dots included, is as long as a longer zone below it |
| DnsWebhook.ZoneForLongest | kubernetes/prod/system/external-dns/external-dns/app/netbox-dns-webhook.py:90-98 | so always when no zone name ends in two dots |
| DnsWebhook.TwoTrailingDotsHide | kubernetes/prod/system/external-dns/external-dns/app/netbox-dns-webhook.py:96-97 | two trailing dots are where that ends: such a zone hides a longer one |
| DnsWebhook.FqdnInvertsRelative | kubernetes/prod/system/external-dns/external-dns/app/netbox-dns-webhook.py:101-113 | a record made for a host reads back as that host, if and only if the host is not "@" under the zone |
| DnsWebhook.CreatedIsFound | kubernetes/prod/system/external-dns/external-dns/app/netbox-dns-webhook.py:137-139 | a record stored for an endpoint is found under that endpoint's key |
| DnsWebhook.FindZone | kubernetes/prod/system/external-dns/external-dns/app/netbox-dns-webhook.py:90-98 | the loop of `zone_for` computes the zone specified |
| DnsWebhook.Current | kubernetes/prod/system/external-dns/external-dns/app/netbox-dns-webhook.py:137-139 | the grouping loop gives each key exactly its records |
| DnsWebhook.PlanOne | kubernetes/prod/system/external-dns/external-dns/app/netbox-dns-webhook.py:142-161 | one endpoint's turn: skipped with its reason, or its deletions and creations |
| DnsWebhook.Plan | kubernetes/prod/system/external-dns/external-dns/app/netbox-dns-webhook.py:131-166 | `plan` gives the creations, deletions and skips specified, and every owned record of a name and type to be deleted is among the deletions |
| DnsWebhook.GoneAreDeleted | kubernetes/prod/system/external-dns/external-dns/app/netbox-dns-webhook.py:162-164 | after applying a plan, at each name and type to be deleted exactly the records without the owner mark are left |
| DnsWebhook.SkippedExactly | kubernetes/prod/system/external-dns/external-dns/app/netbox-dns-webhook.py:142-154 | an endpoint is skipped exactly for a type not handled, no zone that holds it, or a record there without the owner mark, in this order |
| DnsWebhook.HoldsByLabels | kubernetes/prod/system/external-dns/external-dns/app/netbox-dns-webhook.py:90-98 | a zone holds a host exactly when the host's last labels are the zone's |
| DnsWebhook.RecordIsAt | kubernetes/prod/system/external-dns/external-dns/app/netbox-dns-webhook.py:106-113 | which records are at an endpoint: those of its type whose name, as NetBox gives it or made from the zone's, is its own, case and dots at the end aside |
| DnsWebhook.Endpoints | kubernetes/prod/system/external-dns/external-dns/app/netbox-dns-webhook.py:116-128 | one endpoint per name and type of the owned records, in the order of their names and then types, with its targets sorted and the TTL of its first record |
| DnsNames.ReplanWritesNothing | scripts/netbox_seed.py:455-480 | writing the plan and planning again writes nothing |
| DnsNames.NamesConverge | scripts/netbox_seed.py:455-480 | after the writes an in-use address that can have a name has exactly it; an idle one has lost it only if it was the sync's own |
| DnsNames.NameForExactly | scripts/netbox_seed.py:440-452 | an address is given a name if and only if its object has a label and some prefix that holds it names a zone, and then that label in the zone of the first of the longest |
| DnsNames.StatusDecides | scripts/netbox_seed.py:464-473 | by an object's status: decommissioning, or IoT, is left alone; active and staged are in use; any other is idle |
| DnsNames.HeldIsLeft | scripts/netbox_seed.py:464-469 | a decommissioning object's or an IoT device's address is never written |
| DnsNames.ClearedExactlyWhen | scripts/netbox_seed.py:473-479 | a name is cleared exactly on an idle object's address that has the very name the sync would give |
| DnsNames.GivenInTheMostSpecificZone | scripts/netbox_seed.py:448-451 | every name given is a valid label in the zone of a prefix that holds the address, none more specific naming one |
| DnsNames.DnsPlan | scripts/netbox_seed.py:455-480 | the loop over the addresses against the two name lists computes the plan specified |
| DnsNames.WantedDnsNames | scripts/netbox_seed.py:426-452 | the loop over the addresses computes the names specified |
| DnsNames.MostSpecific | scripts/netbox_seed.py:448-450 | the choice among the held prefixes is the specified one, the first of the longest |
| DnsNames.DnsLabelIsLabel | scripts/netbox_seed.py:396-399 | a label holds only lower-case letters, digits and hyphens, none at its ends |
| DnsNames.RunBecomesOneHyphen | scripts/netbox_seed.py:396-399 | a run of other characters becomes one hyphen |
| DnsNames.DnsLabelTwice | scripts/netbox_seed.py:396-399 | a label is its own label |
| Relink.Relink | kubernetes/prod/apps/grimmory/grimmory/app/relink/grimmory-relink.py:74-180 | from a checked library and the rows read to the end of the run, on a database that may have changed in between: the plans are exactly those the rows' fates give; it commits if and only if every planned row still has the folder, name and hash it was read with (and, where changed rows are counted, another place to go), and else the database is as it was; a committed run leaves what Outcome says of planned and other rows, and its exit code is 1 exactly when the read-back of a plan fails |
| Relink.OutcomeIs | kubernetes/prod/apps/grimmory/grimmory/app/relink/grimmory-relink.py:115-163 | what any commit leaves: the planned rows and books at their new places and all others as they were; a planned row that still belongs to the book it was read with leads to an existing file of its recorded hash if and only if the book is live; the other rows lead where they did if and only if no book that changes library path leaves a live file behind |
| Relink.RestoredExactlyWhen | kubernetes/prod/apps/grimmory/grimmory/app/relink/grimmory-relink.py:154-163 | on any database, after a commit a planned row leads to an existing file of its recorded hash if and only if it belongs to a live book that goes to a library with such a file at the planned place |
| Relink.RestoredInItsBook | kubernetes/prod/apps/grimmory/grimmory/app/relink/grimmory-relink.py:154-163 | in the book it was read with: if and only if that is live, and then to the very file planned |
| Relink.DeletedMeanwhile | kubernetes/prod/apps/grimmory/grimmory/app/relink/grimmory-relink.py:154-174 | an input: the book deleted between read and update, the run commits and is confirmed, and the row leads nowhere |
| Relink.RenamedMeanwhile | kubernetes/prod/apps/grimmory/grimmory/app/relink/grimmory-relink.py:155-161 | an input on which it must not commit: the row renamed between read and update, its content the same; the run rolls back |
| Relink.ConfirmedExactlyWhen | kubernetes/prod/apps/grimmory/grimmory/app/relink/grimmory-relink.py:165-174 | the read-back confirms a plan if and only if the file has a book and that is in the planned library; a confirmed row leads to its file exactly when its book is live |
| Relink.ReadBack | kubernetes/prod/apps/grimmory/grimmory/app/relink/grimmory-relink.py:165-174 | the loop fails exactly when some plan is not confirmed |
| Relink.AsItWasRead | kubernetes/prod/apps/grimmory/grimmory/app/relink/grimmory-relink.py:115-163 | on the database as it was read the run commits unless an update has nothing to change where changes are counted, and every planned row is restored |
| Relink.CommittedPlans | kubernetes/prod/apps/grimmory/grimmory/app/relink/grimmory-relink.py:115-163 | the plans made in one transaction on any database: committed exactly when every planned row is as it was read, and then all made |
| Relink.PlansAreDistinct | kubernetes/prod/apps/grimmory/grimmory/app/relink/grimmory-relink.py:115-140 | no row of the query is planned twice, and no two plans are for one file row |
| Relink.MakePlans | kubernetes/prod/apps/grimmory/grimmory/app/relink/grimmory-relink.py:115-140 | every missing row is planned or reported, exactly once, and as its fate says |
| Relink.PlanIsSound | kubernetes/prod/apps/grimmory/grimmory/app/relink/grimmory-relink.py:121-128 | a plan names an existing file of the row's content that no live row claims |
| Relink.PlannedExactly | kubernetes/prod/apps/grimmory/grimmory/app/relink/grimmory-relink.py:93-140 | a missing row is planned, to a library and file, if and only if that is the one unclaimed file of its content, no other missing row has that content, it is no folder-based book, and every such file of its book is in that library |
| Relink.ReportedExactly | kubernetes/prod/apps/grimmory/grimmory/app/relink/grimmory-relink.py:119-137 | and else it is reported as folder-based, without a file, split over libraries, or sharing its content, with how many files |
| Relink.PlansDisjoint | kubernetes/prod/apps/grimmory/grimmory/app/relink/grimmory-relink.py:124-128 | no two plans get one file |
| Relink.OneLibraryPerBook | kubernetes/prod/apps/grimmory/grimmory/app/relink/grimmory-relink.py:133-140 | the planned files of one book go under one library path |
| Relink.CommitsExactlyWhen | kubernetes/prod/apps/grimmory/grimmory/app/relink/grimmory-relink.py:154-163 | the transaction commits if and only if every planned file is there with the folder, name and hash it was read with, and, where changed rows are counted, goes to another place |
| Relink.CommitRelinks | kubernetes/prod/apps/grimmory/grimmory/app/relink/grimmory-relink.py:154-163 | after a commit every planned row and book is at its new place and every other row and book is as it was |
| Relink.OthersResolveExactlyWhen | kubernetes/prod/apps/grimmory/grimmory/app/relink/grimmory-relink.py:133-162 | all other rows still find their files if and only if no book that changes library path has a live file there outside the plans |
| Relink.SiblingLost | kubernetes/prod/apps/grimmory/grimmory/app/relink/grimmory-relink.py:133-162 | a book of two files of which one moved to another library: the other is lost |
| Relink.SamePlaceInAnotherLibrary | kubernetes/prod/apps/grimmory/grimmory/app/relink/grimmory-relink.py:156-161 | where only changed rows are counted, a move to the same place in another library aborts the run |
| Relink.Database.Apply | kubernetes/prod/apps/grimmory/grimmory/app/relink/grimmory-relink.py:154-163 | the updates one by one, with the rollback: all are made if every planned row is as it was read (and goes to another place, where changes are counted), and else the database is as it was |
| Relink.FindMissing | kubernetes/prod/apps/grimmory/grimmory/app/relink/grimmory-relink.py:93-98 | the loop over the rows gives the claimed files and the missing rows |
| Relink.Unclaimed | kubernetes/prod/apps/grimmory/grimmory/app/relink/grimmory-relink.py:105-114 | the walk groups exactly the unclaimed readable files by hash |
| Relink.MatchRows | kubernetes/prod/apps/grimmory/grimmory/app/relink/grimmory-relink.py:119-131 | the loop over the missing rows plans or reports each as specified |
| Relink.SplitBooks | kubernetes/prod/apps/grimmory/grimmory/app/relink/grimmory-relink.py:134-137 | the books of more than one library path are exactly those found |
| Ownership.ListsAreApart | scripts/k8s_backup/ownership.py:32-86 | no path string is both capture's and generate's, though `*` crosses `/` |
| Ownership.PromotedOverlapsExactly | scripts/k8s_backup/ownership.py:101-113 | a promoted manifest is generate's too exactly when it is called helmrelease.yaml or ks.yaml |
| Ownership.OwnersOverlapExactly | scripts/k8s_backup/ownership.py:156-165 | the two phases' owners overlap exactly on an unprotected app/helmrelease.yaml or app/ks.yaml of a promoted release |
| Ownership.WrittenManifestsAreNotGenerates | scripts/k8s_backup/promote.py:57-63 | no file capture writes into a promoted folder is generate's |
| Ownership.PromotedOwnsAny | scripts/k8s_backup/ownership.py:105-111 | which release comes first never matters: the owner accepts exactly the manifests of some promoted release |
| Ownership.ProtectedPaths | scripts/k8s_backup/ownership.py:120-149 | the loops over hand-written releases and repository files grow the set specified |
| Ownership.ProtectedExactly | scripts/k8s_backup/ownership.py:120-149 | a path is protected exactly when some hand-written release needs it: its own files, its namespace.yaml, the repositories its HelmReleases name |
| Ownership.HandwrittenIsNobodys | scripts/k8s_backup/ownership.py:152-165 | neither phase owns anything a hand-written release needs |
| Ownership.PromotedAmongAre | scripts/k8s_backup/ownership.py:93-98 | the promoted releases are exactly those marked and not hand-written |
| FileTracker.RemovedExactly | scripts/k8s_backup/filetracker.py:37-89 | over any run of writes and keeps, what the sweep removes is exactly what was there, in one of the two folders or among the four top files, owned, and neither written nor kept |
| FileTracker.FilesAfter | scripts/k8s_backup/filetracker.py:79-89 | after a run every path holds its last written content, or what it held, or is gone if removed; a dry run changes nothing and reports the same |
| FileTracker.ReportIsComplete | scripts/k8s_backup/filetracker.py:53-84 | every file that was there is reported, as removed or else as modified or unmodified; a path is added exactly when written and new |
| FileTracker.SecondRunIsQuiet | scripts/k8s_backup/filetracker.py:1-5 | the same events again on what a run left add, modify and remove nothing |
| FileTracker.SeenExactly | scripts/k8s_backup/filetracker.py:53-74 | seen in the end: what was written, and what was kept and there before |
| FileTracker.RunOn | scripts/k8s_backup/filetracker.py:27-89 | a whole phase on a tracker and a disk does what the run specification says |
| FileTracker.Tracker.constructor | scripts/k8s_backup/filetracker.py:28-51 | the scan finds exactly the owned files of the two folders and four top files |
| FileTracker.Tracker.Write | scripts/k8s_backup/sink.py:20-39 | a write goes to the disk unless it is a dry run, and into the report |
| FileTracker.Tracker.RecordWritten | scripts/k8s_backup/filetracker.py:53-63 | added, modified or unmodified by the hash there was |
| FileTracker.Tracker.KeepExisting | scripts/k8s_backup/filetracker.py:65-74 | keeps only what was there and not seen yet |
| FileTracker.Tracker.SweepOrphans | scripts/k8s_backup/filetracker.py:79-84 | removes the orphans in order, from the disk too unless it is a dry run |
| CaptureRun.FailedListingsLoseNothing | scripts/k8s_backup/capture.py:535-689 | whichever listings fail, no tracked, local or raw file of a failed kind is swept, and after any namespaced failure no promoted manifest |
| CaptureRun.SweptExactly | scripts/k8s_backup/capture.py:519-690 | a file is swept exactly when it was there and neither the run so far nor either pass wrote or kept it |
| CaptureFiles.ClusterHolds | scripts/k8s_backup/capture.py:552-578 | after the cluster pass a path holds the content of a listed object whose file it is, a local one's under kubernetes/.local/cluster and any other's under kubernetes/cluster, and else what it held |
| CaptureFiles.RawHolds | scripts/k8s_backup/capture.py:613-659 | the same of the raw files, for the objects the filters let through in a namespace that is not built in, ambiguous or promoted |
| CaptureFiles.PromotionsHold | scripts/k8s_backup/capture.py:767-816 | the same of the promoted releases' manifests and Secrets, unless held |
| CaptureFiles.NamespaceHolds | scripts/k8s_backup/capture.py:767-780 | a promoted namespace's namespace.yaml holds the live Namespace, if it could be read, and is as it was, and not swept, if not; it is as it was too if an earlier phase has it or a hand-written release needs it |
| CaptureFiles.CaptureHolds | scripts/k8s_backup/capture.py:519-690 | all three together, after both passes |
| CaptureFiles.FilesAfterRun | scripts/k8s_backup/capture.py:146-162 | and after the sweep: a path that is some object's is there with such an object's content, any other is as it was or swept |
| CaptureFiles.HeldStays | scripts/k8s_backup/capture.py:781-790 | once a listing failed or an object of the namespace needed redaction, the promoted manifests stay as they are: none is written, none swept |
| CaptureRun.AmbiguousIsNotSwept | scripts/k8s_backup/capture.py:682-687 | what the releases of an ambiguous namespace have is never swept |
| CaptureRun.HeldBackIsNotSwept | scripts/k8s_backup/capture.py:781-810 | neither is anything a redaction, a failed Secrets listing or a Secret not yet live holds back |
| CaptureRun.ListedRawFileSwept | scripts/k8s_backup/capture.py:620-659 | a listed namespaced kind's raw file is swept if and only if none of the listed objects is written there |
| CaptureRun.ListedClusterFileSwept | scripts/k8s_backup/capture.py:552-578 | the same for both folders of a listed cluster kind |
| CaptureRun.PassIs | scripts/k8s_backup/capture.py:613-653 | after the item loop each promoted namespace has its own manifests, and is held exactly when a listing failed or one of its objects needed redaction |
| CaptureRun.PromotionSees | scripts/k8s_backup/capture.py:767-816 | what one promoted release's step has written or kept, path by path |
| CaptureRun.CaptureCluster | scripts/k8s_backup/capture.py:519-582 | the cluster pass leaves the tracker and the disk as specified |
| CaptureRun.CaptureNamespaced | scripts/k8s_backup/capture.py:585-690 | the namespaced pass does |
| CaptureRun.WritePromotedRelease | scripts/k8s_backup/capture.py:767-816 | one promoted release's step does |
| CaptureRun.PrepareSecrets | scripts/k8s_backup/capture.py:741-757 | each listed Secret becomes a manifest to write or to wait: templated, escaped, and checked against the live values |
| CaptureRun.WritesExactlyTheLive | scripts/k8s_backup/capture.py:797-810 | a promoted Secret's manifest is written exactly when cluster-secrets holds all its values |
| CaptureRun.WrittenOrKept | scripts/k8s_backup/capture.py:797-810 | written or not, its file survives the sweep |
| CaptureRun.WrittenSecretComesBackExactlyWhen | scripts/k8s_backup/capture.py:797-816 | a Secret manifest a run writes has the Secret's keys, and Flux makes exactly the Secret's data of it if and only if no two of its keys share a variable with different values |
| CaptureRun.WrittenSecretsAgree | scripts/k8s_backup/capture.py:797-810 | no two Secret manifests a run writes give one variable different values |
| CaptureRun.AddSecrets | scripts/k8s_backup/capture.py:796-810 | the loop over its Secrets adds the live ones and keeps the others' files |
| CaptureRun.HandwrittenIsNeverSwept | scripts/k8s_backup/ownership.py:152-165 | neither phase's sweep removes what a hand-written release needs, whatever the phase wrote or kept |
| CaptureRun.KeepTheRest | scripts/k8s_backup/capture.py:682-689 | the ambiguous releases' files and the failed kinds' raw copies are kept, and nothing else |
| CaptureRun.CaptureAndSweep | scripts/k8s_backup/capture.py:146-162 | both passes and the sweep: the removed list, sorted, and the disk |
| RedactionTheorems.RedactionChangesExactlyTheRecorded | scripts/k8s_backup/secretscan.py:375-461 | exactly the recorded strings become the placeholder: shape and all else are as before, no string has two records, none is recorded without having changed |
| RedactionExactly.RedactedExactly | scripts/k8s_backup/secretscan.py:375-461 | a string changes if and only if it is below the root, is not the placeholder, and in the document as it was a pattern matches it, it looks like entropy, the key-name detector finds it, or the env-var detector does and its entry's name is not itself redacted |
| RedactionExactly.RecordedExactly | scripts/k8s_backup/secretscan.py:375-461 | and it is recorded with a reason if and only if that reason is the first of these: the patterns that match, entropy, the env entry's name, its key |
| RedactionExactly.SuspiciousAre | scripts/k8s_backup/secretscan.py:110-131 | the key-name detector finds exactly the strings under a suspicious key that are not blank |
| RedactionExactly.EnvAre | scripts/k8s_backup/secretscan.py:160-187 | the env-var detector finds exactly the values of env entries whose names are suspicious |
| RedactionExactly.ValueBesideARedactedName | scripts/k8s_backup/secretscan.py:416-439 | the input where they part: an env entry whose name is a credential itself, whose value is found but left |
| RedactionTheorems.DetectorsFindNothing | scripts/k8s_backup/secretscan.py:110-187 | after redaction the entropy detector finds nothing, no string matches a pattern, and the key-name and env-var detectors find only the placeholder |
| RedactionTheorems.SecondRunRedactsNothing | scripts/k8s_backup/secretscan.py:375-461 | a second run records nothing and changes nothing |
| RedactionTheorems.StringsAfter | scripts/k8s_backup/secretscan.py:375-385 | a string reads back as the placeholder if recorded and as it was if not |
| RedactionTheorems.WalkedIsPut | scripts/k8s_backup/secretscan.py:388-461 | each pass changes exactly the strings it records |
| RedactionTheorems.WalkCleans | scripts/k8s_backup/secretscan.py:388-461 | each pass leaves itself nothing to redact |
| RedactionTheorems.StaysClean | scripts/k8s_backup/secretscan.py:388-461 | a placeholder anywhere gives no pass anything new to redact |
| RedactionTheorems.RecordsOnce | scripts/k8s_backup/secretscan.py:388-461 | a pass records no string twice |
| RedactionTheorems.BareStringIsLeft | scripts/k8s_backup/secretscan.py:388-414 | a document that is one string is left alone |
| RedactionInPlace.RedactCredentials | scripts/k8s_backup/secretscan.py:375-385 | the three in-place passes leave the document redacted as specified, with the records in the order they are found, the same as the specification's, each as often |
| RedactionInPlace.RedactByString | scripts/k8s_backup/secretscan.py:388-413 | the pattern and the key-name pass, in place: the document and the records in order |
| RedactionInPlace.RedactEnv | scripts/k8s_backup/secretscan.py:416-439 | the env-var pass, in place: the document, and the records in order, an env list's own before those further in |
| RedactionInPlace.EnvRecordsAre | scripts/k8s_backup/secretscan.py:416-439 | that order holds the records of the specification's walk, each as often |
| RedactionInPlace.ListWalk | scripts/k8s_backup/secretscan.py:420-436 | fixing an env list and then walking into it is one walk that knows where it is |
| RedactionInPlace.FixEntry | scripts/k8s_backup/secretscan.py:421-435 | one env entry: its value replaced exactly when its name says credential and its value may be one |
| RedactionInPlace.LooksLikeEnvNode | scripts/k8s_backup/secretscan.py:153-157 | the test for an env list, on a list in memory |
| Redaction.PlaceholderIsHarmless | scripts/k8s_backup/secretscan.py:366-366 | the placeholder has no entropy worth a finding and, as a name, says no credential |
| Redaction.EntropyDecides | scripts/k8s_backup/secretscan.py:92-103 | of a text of the base64 alphabet and up to two equals signs the entropy decides, exactly when it has 32 characters, a capital, a small letter and a digit; else it is left |
| Redaction.SafeKeysAreLeft | scripts/k8s_backup/secretscan.py:62-78 | keys on the safe side: existingSecret and secretName |
| FluxOwner.OneEntrypointPerChain | scripts/k8s_backup/fluxowner.py:40-57 | when a walk reaches a self-applied root, every Kustomization on it but the root gives the same entrypoint, the one directly below the root |
| FluxOwner.OneEntrypointExactlyWhen | scripts/k8s_backup/fluxowner.py:48-57 | on any graph, all Kustomizations below the end of a walk give one name if and only if the walk does not end by pointing back beyond the last but one, or every key such a round can end in has that name |
| FluxOwner.RingsDisagree | scripts/k8s_backup/fluxowner.py:41-57 | two Kustomizations of different names that applied each other give two names, and neither None |
| FluxOwner.FluxOwnership.Walk | scripts/k8s_backup/fluxowner.py:48-53 | the walk ends on any graph, cycles and unknown parents included, never visiting one twice, within one step more than there are Kustomizations |
| FluxOwner.FluxOwnership.Entrypoint | scripts/k8s_backup/fluxowner.py:40-57 | None exactly for an unlabelled object or an unknown first Kustomization; else the last but one of the walk |
| FluxOwner.WalkIsUnique | scripts/k8s_backup/fluxowner.py:48-53 | there is one walk from a Kustomization |
| FluxOwner.LaterWins | scripts/k8s_backup/fluxowner.py:34-38 | the parents known are those of each name's last entry |
| FluxOwner.FluxOwnership.constructor | scripts/k8s_backup/fluxowner.py:34-38 | the constructor's loop builds that map |
| WebSocket.SentFrameDecodes | scripts/ha_iot_setup.py:118-132 | for every payload and mask, a reader that follows the standard gets one final masked text frame of the payload, and everything after it |
| WebSocket.MessageIsReceived | scripts/ha_iot_setup.py:134-150 | for every fragmentation with pings and pongs between, `_recv` gives the concatenated data and leaves exactly what follows |
| WebSocket.PartMessageIsRefused | scripts/ha_iot_setup.py:134-150 | a message cut off anywhere is never handed over |
| WebSocket.CloseEndsIt | scripts/ha_iot_setup.py:146-147 | a close frame between fragments ends the socket, not the message |
| WebSocket.ServerFrameDecodes | scripts/ha_iot_setup.py:134-150 | the server frames used are the standard's: its reader gets each back |
| WebSocket.HomeAssistantSocket.Recv | scripts/ha_iot_setup.py:134-150 | the receiving loop does what the stream specification says, however the network chunks the bytes |
| WebSocket.HomeAssistantSocket.NextFrame | scripts/ha_iot_setup.py:137-143 | one frame's header, length and payload, off the stream exactly |
| WebSocket.HomeAssistantSocket.Read | scripts/ha_iot_setup.py:106-116 | exactly the bytes asked for over any chunking, or None when the stream ends first |
| WebSocket.Send | scripts/ha_iot_setup.py:118-130 | the bytes sent for a payload the standard allows are one final masked text frame of it, and nothing more |
| WebSocket.BigEndianInverse | scripts/ha_iot_setup.py:126-128 | a packed length reads back |
| WebSocket.MaskTwice | scripts/ha_iot_setup.py:129-130 | masking twice gives the payload |
| WebSocket.XorBits | scripts/ha_iot_setup.py:129-130 | a bit of the result is 1 exactly when the operands differ there |
| WebSocket.MaskedBits | scripts/ha_iot_setup.py:129-130 | each payload byte is masked bit by bit with the mask's bytes in turn |
| WebSocket.BigEndianByte | scripts/ha_iot_setup.py:126-128 | each byte of a packed length by its place, the most significant first |
| WebSocket.SentLayout | scripts/ha_iot_setup.py:118-130 | the bytes sent, one by one: a final text frame, masked, its length in one, three or nine bytes, the mask and the masked payload |
| KeaConverter.HostEndsOnce | docker/kea/tools/dnsmasq_to_kea.py:328-360 | every host entry ends as one note naming its line and the first of the four reasons, or as one reservation per MAC (one for a client ID) in a subnet that holds its address |
| KeaConverter.NotesAreHosts | docker/kea/tools/dnsmasq_to_kea.py:328-352 | the notes are the hosts' that are not reserved, one each |
| KeaConverter.ContainingIsFirst | docker/kea/tools/dnsmasq_to_kea.py:148-152 | no subnet met earlier than the one chosen holds the address |
| KeaConverter.AddedAreHosts | docker/kea/tools/dnsmasq_to_kea.py:328-360 | a subnet's reservations are exactly its hosts', of addresses it holds |
| KeaConverter.SharedExactlyWhenReservedTwice | docker/kea/tools/dnsmasq_to_kea.py:355-360 | an address is counted twice exactly when some subnet reserves it twice |
| KeaConverter.SiteIdsFitEverySubnet | docker/kea/tools/dnsmasq_to_kea.py:363-372 | every subnet has an ID, all distinct, none 0 |
| KeaConverter.IdsDistinct | docker/kea/tools/dnsmasq_to_kea.py:364-372 | the same kept by every step of the loop |
| KeaConverter.OwnIdKept | docker/kea/tools/dnsmasq_to_kea.py:108-110 | a /24 keeps its third octet unless that is 0 or an earlier subnet has it |
| KeaConverter.OwnIdIsThirdOctet | docker/kea/tools/dnsmasq_to_kea.py:108-110 | the own ID of a /24 is its third octet, and 0 for every other prefix |
| KeaConverter.IdsExactly | docker/kea/tools/dnsmasq_to_kea.py:363-372 | which ID each subnet gets: its third octet as a /24, unless that is 0 or an earlier subnet's ID; else 1000, 1001 and so on, in order |
| KeaConverter.SortNetsAscends | docker/kea/tools/dnsmasq_to_kea.py:363-364 | by address, and one address's by prefix length |
| KeaConverter.LeasesAddUp | docker/kea/tools/dnsmasq_to_kea.py:409-436 | imported, expired and unknown leases sum to the IPv4 lease lines read |
| KeaConverter.ImportedUnderItsSubnet | docker/kea/tools/dnsmasq_to_kea.py:421-427 | each imported lease is an unexpired line's, under the ID of the one subnet that has it, which holds its address |
| KeaConverter.LeaseFates | docker/kea/tools/dnsmasq_to_kea.py:409-436 | a lease is over exactly when its expiry is not 0 and before now; of the others those with a real MAC in a known subnet are imported |
| KeaConverter.ImportedExactly | docker/kea/tools/dnsmasq_to_kea.py:409-436 | every such lease is imported, as it is, under the ID of the first subnet that holds its address, and no other |
| KeaConverter.Converter.ResolveHosts | docker/kea/tools/dnsmasq_to_kea.py:328-360 | the loop over the hosts leaves the notes, reservations and shared addresses specified |
| KeaConverter.Converter.Site | docker/kea/tools/dnsmasq_to_kea.py:363-407 | the IDs specified, and addresses unique exactly when none is shared |
| KeaConverter.Converter.Leases | docker/kea/tools/dnsmasq_to_kea.py:409-437 | the leases to import and the two counts specified |
| KeaConverter.Converter.SubnetContaining | docker/kea/tools/dnsmasq_to_kea.py:148-152 | the first subnet met that holds the address |
| Supernet.Smallest | scripts/keyvault_views/kea_db_clients.py:19-21 | for addresses of one family the loop ends, one step per bit given up, at a network that holds them all while no longer prefix does |
| Supernet.Build | scripts/keyvault_views/kea_db_clients.py:12-24 | a network is given exactly when the addresses agree at /30 |
| Supernet.AcceptedExactlyWhen | scripts/keyvault_views/kea_db_clients.py:22-23 | a smallest network is /30 or narrower exactly when the addresses agree there |
| Supernet.FourAddresses | scripts/keyvault_views/kea_db_clients.py:22-23 | for two IPv4 addresses: exactly when they are equal after division by 4 |
| Supernet.MixedFamiliesNeverMeet | scripts/keyvault_views/kea_db_clients.py:19-21 | with one address of each family no step ever ends the loop |
| Addresses.WiderHoldsToo | scripts/keyvault_views/kea_db_clients.py:20-21 | addresses in one network of a length are in one of every shorter length |

## Left out

- HTTP, kubectl, helm, git, SQL driver and socket calls: their answers are inputs or nondeterministic results, their writes steps on a modelled store. A refused write stops a Pi-hole or NetBox run in the source; the model's stores take every write.
- YAML: documents are trees of strings, scalars, dicts and lists. Aliases (one node reached twice) and non-string keys are not modelled.
- `auto_seed_candidates`, `from_live`, `pending_rows`, `clean_for_gitops`, `freeze_restarted_at`: extraction and clean-up around the modelled core.
- `make` and the views: what NetBox gives for a name is an input of the Key Vault run.
- SkippingIsSafe: the facts a run computes are the same in both runs compared; that a template reads other names' values is inside that input.
- The neat, skip and locality filters of the capture passes, labels added to namespace.yaml afterwards, and the other phases of a run: an item comes with its file name, content and the filters' verdict, and the other phases are whatever was written or kept before.
- WritePromotedRelease: `freeze_restarted_at`, which puts the restart time of a manifest's last version back into it.
- CaptureNamespaced: the counts per kind, the warnings and the StorageClass check.
- ProtectedPaths: the marker and source files are given as a tree of facts; symbolic links and unreadable files are not modelled.
- SweepOrphans: pruning the folders left empty.
- RedactionChangesExactlyTheRecorded: a record's place is the position of each step from the root, not the dotted path text, in which two places can read the same.
- The five credential patterns and the entropy threshold are parameters; IP address findings are not modelled.
- Plan: `deletes` and `skipped` are sets; the source's sorted lists carry the same elements.
- Endpoints: labels and provider-specific fields, which are always empty.
- Relink: paths are normalized components below a library root; symbolic links and files that vanish during the walk are not modelled. The run starts where every library path was found mounted and Grimmory idle; `busy` is the second look at its tasks.
- Site: options, pools and domains, and the notes on routers and DNS servers.
- Leases: lifetimes, hostnames and client IDs of leases.
- The parsing of dnsmasq's lines: `Converter` starts from parsed subnets and hosts.
- HomeAssistantSocket.Recv: what `json.loads` makes of the bytes; a socket error and the end of the stream are one case, as in the source.
- SentFrameDecodes: payloads of 2^63 bytes or more, whose length the standard forbids.
- `call`, `run_flow` and the rest of Home Assistant's setup.
- MixedFamiliesNeverMeet: the method `Smallest` requires one family, since the source's loop does not end otherwise.
- `generate` and `flux.py` build Flux documents, `scaffold` and `inventory.py` folders and reports, the metric exporters turn service answers into Prometheus text; the Termix, Semaphore, Organizr, Grimmory and media reconcilers compare each object's settings with the wanted ones and send what differs.
