# Verification models of the corruption-center backend

Dafny models of the parts of corruption-center that carry protocols and algorithms, with proofs of what
they promise. `dafny verify dfyconfig.toml` checks the project.

| Module | Models |
|---|---|
| `DjenClient`, `PartyWindows` | the DJEN search: page ranges halved around records the server refuses, the walk over ranges, one-year windows under one cap |
| `Retraction`, `SanctionsSync` | run stamps on sanction records, the guarded sweep that unpublishes what a run did not see, and the worker that decides who may sweep |
| `WatcherPipeline`, `CaseState`, `WatcherRecords` | the DataJud watcher: producer, six fetchers, bounded channel and consumer; the disposition derived from a movement history; what polls and registrations write |
| `Pacing` | the request limiters and the DataJud retry loop |
| `Text`, `Tombstones`, `Purge`, `Erasure` | name-derived node ids, name-derived tombstone keys, and whether a purged subject stays out of the graph and out of the party snapshots |
| `OwnershipCrawl` | the CNPJ worklist over a possibly cyclic ownership graph |
| `CaseGraph`, `OrgMerge`, `Evidence` | the writers of DEFENDANT_IN edges, the merge of two Organization nodes, and the rule that a conviction needs recorded evidence |
| `Spellings` | which spellings of a name share a tombstone key, a node id or a roster key, said of the letters and words alone |
| `Roster` | the DJEN roster, its keys and the delta handed on by each poll |
| `Fold` | accent folding of a search term and of a stored value |
| `ExpandState` | which nodes the graph canvas shows |

Network answers, clocks and the other end of a channel are parameters: a theorem quantifies over all of
them. The stores are maps and sets updated by one step per statement. Code that updates fields or loops is
a class or a method with invariants, proved against functions of its inputs and old state; the lemmas are
about those functions, over every run.

What the models show where the code falls short of its own comments, each with an exact condition or a
concrete witness:

- A purged node stays gone exactly when every spelling of its slug is stopped by a tombstone and no ingest
  of it stands between its check and its write. One tombstone does that exactly when the slug has no `_`
  (it is one word, without `/`, `_`, `?`, `#`, `%`) and the key is usable; so the first purge of "ANA LIMA"
  lets the node come back as "ANA_LIMA": same node id, another key. Among spellings without `_`, `?`, `#`
  and `%` one key decides for every name. A name whose last character that is neither a space nor
  punctuation is `:`, or that has no such character, leaves no tombstone. A purge whose tombstone write or
  scrub fails has already removed the node, and trying it again is refused.
- A purged name is back in a case's party snapshot with the next poll that lists it first under its key
  while that key is free: the polls skip the handling of a purged party, not its recording. The scrub also
  leaves rows that spell the name with other accents or inner spaces.
- `phase` on a proceeding latches: "sentenced" is never taken back, although the comment beside the write
  says nothing latches. The `watcher_tracking` row latches "concluded" while the graph's status does not.
  A poll whose tribunal spells a known case number differently fails on the unique id and ends the run.
  A run that overlaps another can write a status back to the row that the other has replaced.
- A published record that was never stamped is not unpublished by any sweep until some run lists it again.
- An edge carries the outcome of whoever wrote it last, where a merge writes the outcome of the source's
  edge over the survivor's, and the evidence, operator and date of the decision last recorded on it or on an
  edge merged into it. So a citation or a confirmed match that comes after a decision replaces the outcome
  and leaves the operator's record beside it, and so does a merge with an edge that was only cited, however
  old that citation is.
- Attaching a CNPJ that another Organization holds reports success when the source does not exist. A merge
  that fails has already moved the edges it could.
- A `Retry-After` in seconds whose product with a second overflows 64 bits may be honoured as a fraction of
  a second; the comment beside it says an absurd value counts as none, and the code caps it at 90 seconds.
- The two folding functions disagree on Å, Æ, Ð, Ø, Ý, Þ, Ÿ and on outer whitespace; a search over a field
  the database folds misses every stretch that holds one of those capitals.
- The key of a party ignores the case of its pole while only "P" is acted on: a party is treated as a
  defendant exactly when the first mention of its key says "P", so a first "p" hides every later "P". The
  key's separator is not escaped.
- A defendant is handled once more for each poll that fails between handling it and recording it.

## Model

| member | source | states |
|---|---|---|
| DjenClient.FetchRangeIsolatesFaults | backend/workers/djen/client.go:253-301 | against a server that refuses exactly the pages that overlap a bad index, an aligned power-of-two range loses exactly its bad indices and nothing aborts |
| DjenClient.FetchRangeAccounts | backend/workers/djen/client.go:253-301 | against arbitrary failures of a server whose answers are right, a range returns its records in order; each one missing was refused alone, twice running, and is counted in skipped; served and total are exact |
| DjenClient.FetchRangeIsolationCost | backend/workers/djen/client.go:238-301 | k bad records in a range of size s cost at most 1 + k(2 log2 s + 1) requests |
| DjenClient.StandardRangeCost | backend/workers/djen/client.go:238-301 | a range of 32 with k bad records takes at most 1 + 11 k requests |
| DjenClient.FetchRangeCost | backend/workers/djen/client.go:253-301 | whatever the server does, at most 3s - 1 requests, and the skipped counter grows by the range's skipped |
| DjenClient.AskedTells | backend/workers/djen/client.go:253-301 | whatever the server does, a range fails exactly when one of the requests it sent broke, and is unserved exactly when all of them were refused |
| DjenClient.PageGrid | backend/workers/djen/client.go:253-260 | the offsets on the grid are the multiples of the page size, and for these the page number gives back the offset |
| DjenClient.HalvesOnGrid | backend/workers/djen/client.go:262-278 | both halves of a range of even size on the grid are on the grid of half the size |
| DjenClient.Client.constructor | backend/workers/djen/client.go:94-115 | a new client walks in ranges of 32 |
| DjenClient.Client.Fetch | backend/workers/djen/client.go:253-301 | whatever the server does, it returns a failure exactly when one of the requests it sent broke, and an unserved range exactly when all were refused |
| DjenClient.Client.Walk | backend/workers/djen/client.go:188-224 | the loop over ranges: whatever the server does, it ends with what the ranges up to its last offset account for, or fails exactly as the requests it sent say; against a server whose answers are right it stops only at the reported count or at the cap |
| DjenClient.Client.Paginate | backend/workers/djen/client.go:188-224 | the first `cap` servable records in order, never more, or an error exactly when the whole first range is unservable; whatever the server does, a request failure exactly when a request it sent broke and no answer exactly when all were refused; under transient failures nothing is lost uncounted; it ends |
| DjenClient.Client.SearchByPartyName | backend/workers/djen/client.go:131-151 | the first `cap` of the windows' servable records one after the other; whatever the servers do, a request failure exactly when one of the requests it sent broke and no answer exactly when all the requests of a window were refused; it fails exactly when a window reached before the cap is met has an unservable first range; under transient failures every record up to the cap is returned or was refused alone twice and counted, across all windows |
| PartyWindows.Windows | backend/workers/djen/client.go:159-173 | the windows, in order, one for each year from 2021 to today |
| PartyWindows.WindowsPartitionCoverage | backend/workers/djen/client.go:153-173 | a day is in a window exactly when it lies between 2021-01-01 and today, and then in one window only |
| PartyWindows.WindowsAreContiguousYears | backend/workers/djen/client.go:153-173 | each window lies in one calendar year and the next begins on the day after it ends |
| Retraction.SanctionGraph.UpsertSanction | backend/db/memgraph/sanctions_writer.go:51-108 | publishes the record under its id and stamps it, keeping the old stamp for an empty run id; fails without a source |
| Retraction.IdsAgreeIff | backend/db/memgraph/sanctions_writer.go:39-41 | for registries without a colon, two entries share a node exactly when their registries agree up to case and outer space and their entry ids up to outer space |
| Retraction.SanctionGraph.SweepRetractedSanctions | backend/db/memgraph/retraction.go:84-163 | the counts, whether the guard refused, and the store after the sweep |
| Retraction.HeldSplits | backend/db/memgraph/retraction.go:95-115 | held = seen + missing + retracted and unseen + never stamped |
| Retraction.SweepEffect | backend/db/memgraph/retraction.go:117-158 | a sweep is accepted exactly when at least 100 records are held and at most a twentieth of them is missing; it then unpublishes the missing and nothing else; a refused one changes nothing; other registries are untouched |
| Retraction.RetractionHistory | backend/db/memgraph/retraction.go:84-163 | over every history a record has exactly one label, and is unpublished exactly when an accepted sweep of its registry by another run than its last stamp came after its last upsert |
| Retraction.RecordsAreKept | backend/db/memgraph/retraction.go:141-158 | no record is ever deleted |
| SanctionsSync.Worker.ApplyAll | backend/workers/sanctions/client_cgu.go:198-215 | the records of a page are applied in order up to the first that fails |
| SanctionsSync.Worker.RunRegistry | backend/workers/sanctions/client_cgu.go:161-222 | finishes exactly when every page up to an empty one was read and applied, and then has stamped the whole listing; stops exactly when the first page not wholly applied could not be fetched, and records that page; fails exactly when it could not be mapped or holds a record that cannot be applied |
| SanctionsSync.Worker.Sweep | backend/workers/sanctions/worker.go:211-246 | sweeps exactly when sweeping is on, the run is full and real, and no failure names the registry |
| SanctionsSync.Worker.SyncRegistry | backend/workers/sanctions/worker.go:150-192 | a registry is swept only after its whole listing was stamped; an accepted sweep leaves published what was listed and what was never stamped, whatever other registries this run stamped; no other registry's record changes |
| SanctionsSync.Worker.Run | backend/workers/sanctions/worker.go:150-192 | over all the groups of one run id: at the end every registry whose sweep was accepted has published exactly its listing and its records never stamped, and the registries no group names are untouched |
| SanctionsSync.FailureBlocksIff | backend/workers/sanctions/worker.go:222-232 | a recorded failure stops the sweep of its own registry and of no other |
| SanctionsSync.CleanSweepPublishesTheListing | backend/workers/sanctions/worker.go:150-246 | after an accepted sweep by a run that had not stamped this registry before, its published ids are the listed ones and those never stamped |
| SanctionsSync.FirstIngestPublishes | backend/workers/sanctions/client_cgu.go:198-215 | an ingest into an empty store publishes as many records as the listing has distinct entries |
| SanctionsSync.CleanSweepPublishesThatMany | backend/workers/sanctions/worker.go:150-246 | after an accepted clean sweep that many listed records are published, and beyond them only records never stamped |
| SanctionsSync.KnownGroupsIff | backend/workers/sanctions/client_cgu.go:55-69 | the four groups are registries under their own names in capitals, and no other group is one |
| SanctionsSync.FailureNamesItsPage | backend/workers/sanctions/client_cgu.go:190-194 | the page that was given up on can be read back from the failure entry |
| SanctionsSync.HistoriesAreKeyed | backend/db/memgraph/sanctions_writer.go:51-108 | over every history a record's id starts with its registry, which keeps the registries of a run apart |
| WatcherPipeline.StepConserves | backend/workers/datajud/worker.go:139-171 | every channel operation keeps each case handed out in exactly one place, the buffer within its bound and the channels closed in order |
| WatcherPipeline.StepBurnsFuel | backend/workers/datajud/worker.go:139-171 | every transition uses up a measure |
| WatcherPipeline.NeverStuck | backend/workers/datajud/worker.go:139-247 | until the consumer is done some goroutine can move |
| WatcherPipeline.EveryCaseConsumedOnce | backend/workers/datajud/worker.go:139-173 | every run ends, and has then consumed each of the first `limit` cases exactly once |
| WatcherPipeline.Consume | backend/workers/datajud/worker.go:173-247 | the statistics are the counts of the polls by outcome |
| WatcherPipeline.TallyIs | backend/workers/datajud/worker.go:173-247 | each counter is the number of polls with its outcome; updated stays 0 with writes off |
| WatcherPipeline.CountsAddUp | backend/workers/datajud/worker.go:173-247 | polled + errors = polls; with writes, not found + restricted + updated = polled |
| WatcherPipeline.ConcurrencyIsInvisible | backend/workers/datajud/worker.go:117-247 | under every interleaving the statistics are those of a serial loop over all the cases when the limit is not positive or not below their number, and over the first `limit` of them otherwise; polled and errors add up to that number |
| CaseState.DeriveCaseState | backend/workers/datajud/worker.go:331-376 | the loop over the sorted history yields the last dispositive movement's disposition, and whether any movement sentences or concludes |
| CaseState.MarksDecide | backend/workers/datajud/worker.go:331-376 | in a criminal case the last movement with a mark decides: a dismissal or absolvição acquits whatever else it shows, an extinction leaves the outcome open, a condenação or procedência convicts; sentenced when some movement acquits or convicts; no other case has an outcome; any case is concluded by 22, 848 or "transito em julgado" |
| CaseState.UnmarkedChangesNothing | backend/workers/datajud/worker.go:331-376 | a movement without a mark changes nothing, wherever it is listed |
| CaseState.FoldPTFolds | backend/workers/datajud/worker.go:380-391 | the base of each accented letter in both cases; the rest of ASCII changes in case only |
| CaseState.CondenacaoConvicts | backend/workers/datajud/worker.go:331-376 | witness: "Condenação" in an "Ação Penal" is a conviction |
| CaseState.ImprocedenciaAcquits | backend/workers/datajud/worker.go:353-359 | witness: "IMPROCEDÊNCIA" is an acquittal |
| CaseState.TransitoConcludes | backend/workers/datajud/worker.go:345-350 | witness: "Trânsito em Julgado" concludes an "Apelação Cível" and gives it no outcome |
| CaseState.ChronologicalIsTheStableSort | backend/workers/datajud/worker.go:406-418 | the sorted copy is a permutation, ascending, and keeps the order of movements of one instant |
| CaseState.StableSortIsUnique | backend/workers/datajud/worker.go:406-418 | there is only one such sequence, whichever stable algorithm runs |
| CaseState.LatestWordWins | backend/workers/datajud/worker.go:296-376 | in a criminal case the disposition is what the latest dispositive movement says, however the tribunal lists them; undeterminable when none is dispositive |
| CaseState.OrderOfArrivalIsIrrelevant | backend/workers/datajud/worker.go:331-418 | with distinct timestamps the derivation is invariant under permutation |
| CaseState.DismissalIsNoConviction | backend/workers/datajud/worker.go:353-373 | a movement with "improceden" also shows the conviction mark "proceden" and is read as an acquittal |
| WatcherRecords.Records.UpsertLegalProceedingByCase | backend/db/memgraph/datajud_writer.go:22-70 | merges by case number, writes each field that is not empty and keeps the others, touches no other node, and fails on a taken id |
| WatcherRecords.IdKeepsDigits | backend/db/memgraph/datajud_writer.go:122-125 | the id keeps the digits of the case number in order |
| WatcherRecords.IdsAgreeIff | backend/db/memgraph/datajud_writer.go:122-125 | two case numbers share an id exactly when they are spelled alike but for outer space, dots and dashes; so never with different digits |
| WatcherRecords.Records.UpdateProceedingCaseState | backend/db/memgraph/datajud_writer.go:94-120 | overwrites the conviction flag, latches the phase, concludes when told |
| WatcherRecords.Records.Register | backend/api/backoffice.go:74-104 | registers 20 digits in both stores; fails otherwise or on a taken id |
| WatcherRecords.Records.RecordPoll | backend/workers/datajud/worker.go:194-281 | with writes on, writes the graph exactly for an answered, unrestricted poll, and the tracking row unless the lookup failed or the id is taken, with the status loaded when the run began unless the poll concludes; writes nothing otherwise |
| WatcherRecords.RowIsLastWrite | backend/workers/datajud/worker.go:216-244 | over every mix of events a tracking row is what the last poll that reached it wrote |
| WatcherRecords.RunKeepsIds | backend/db/memgraph/migrations/001_init.cypher:9 | one node per id, over every mix of polls and registrations; no proceeding disappears |
| WatcherRecords.LastFindingDecides | backend/db/memgraph/datajud_writer.go:22-120 | a proceeding's conviction flag and status are those of the last finding about it; its phase is "sentenced" exactly when some finding was |
| WatcherRecords.RegistrationOnlyAdds | backend/db/memgraph/datajud_writer.go:26-41 | a registration changes no proceeding and no tracking row that exists |
| WatcherRecords.TrackingLatches | backend/workers/datajud/worker.go:216-244 | under runs that do not overlap, a tracking row is concluded exactly when it was or some finding of its own polls concluded, whatever case number those were answered with |
| WatcherRecords.LockstepIff | backend/workers/datajud/worker.go:216-244 | graph and tracking agree on a case exactly when its node's last finding says what was last written to its row |
| WatcherRecords.LockstepOfFreshCase | backend/workers/datajud/worker.go:216-244 | for a case just registered, whose polls are answered about it by runs that do not overlap, exactly when no finding took back an earlier conclusion |
| Pacing.Limiter.Wait | backend/workers/datajud/client.go:54-78 | a grant is at least the interval after the last one and no later than needed |
| Pacing.AtMostNInAWindow | backend/workers/djen/client.go:409-431 | at most n grants fall in any half-open window of n intervals |
| Pacing.NextBackoff | backend/workers/datajud/client.go:233-243 | the delay is the stored value capped, the next stored value its double capped |
| Pacing.RungDoubles | backend/workers/datajud/client.go:233-243 | the k-th delay is the initial one doubled k times, capped |
| Pacing.Post | backend/workers/datajud/client.go:152-226 | succeeds exactly when the first reply that is neither a failure nor a 429 is a 200 preceded by at most 3 failures and 6 429s, in any order; what was sent and slept |
| Pacing.StandardPost | backend/workers/datajud/client.go:152-226 | in status numbers: a post returns the body of a 200, and refuses any other status, that comes first after at most three silences or 5xx and six 429s; otherwise it is exhausted |
| Pacing.StandardWaits | backend/workers/datajud/client.go:30-45 | the waits: 1, 2, 4, ... up to 16 seconds over failures; over a 429 the seconds or the date of the header up to 90 seconds, and without one a ladder up to 90 seconds |
| Pacing.TotalSleepIsBounded | backend/workers/datajud/client.go:18-45 | at most 10 requests, and at most 7 seconds and 6 times 90 seconds of sleep |
| Pacing.RetryAfterIsHonouredIff | backend/workers/datajud/client.go:260-285 | a delay in seconds is honoured up to 90 seconds exactly when it fits in 64 bits and its product with a second fits too or wraps past the cap |
| Pacing.RetryAfterWraps | backend/workers/datajud/client.go:260-285 | witness: 18446744074 seconds are honoured as 290 milliseconds |
| Tombstones.TombstoneKeyName | backend/db/psql/tombstone.go:18-62 | the loop over the name's tokens computes the key |
| Spellings.KeysAgreeIff | backend/db/psql/tombstone.go:17-62 | two spellings share a key exactly when they are the same words in order, up to case, the listed accents and forms of one suffix, whatever blanks and punctuation stand between |
| Spellings.EveryStringIsSpaced | backend/db/psql/tombstone.go:53-62 | every name is words with gaps between them, so the law covers every name |
| Spellings.TombstoneStopsIff | backend/workers/djen/worker.go:343-350 | once a name's tombstone is written, the check stops every other spelling of it and stops no other name it did not stop before |
| Spellings.JoseIsJose | backend/db/psql/tombstone.go:17-26 | witness: "JOSÉ" and "JOSE" leave the one tombstone "name:JOSE" |
| Spellings.JuniorIsJr | backend/db/psql/tombstone.go:40-47 | witness: after any stem JUNIOR and "JR." share a key and NETO has another |
| Tombstones.KeyFactorsThroughSlug | backend/db/memgraph/djen_writer.go:194-205 | the key of a plain name is a function of its slug |
| Tombstones.SpellingsShareKeyIff | backend/db/psql/tombstone.go:18-62 | all plain spellings with a name's slug share its key exactly when the name is plain |
| Tombstones.AllSpellingsShareKeyIff | backend/db/psql/tombstone.go:18-62 | all spellings with a name's slug share its key exactly when the slug has no '_' |
| Tombstones.RecordableIff | backend/db/psql/tombstone.go:66-84 | a name leaves a usable tombstone exactly when its last character that is not blank exists and is not a colon |
| Tombstones.KeyIsIdempotent | backend/db/psql/tombstone.go:53-62 | normalising a key's own name part gives the key again |
| Purge.SubjectStore.IsSubjectPurged | backend/db/psql/tombstone.go:130-146 | true exactly when one of the usable keys is in the table |
| Purge.SubjectStore.CreatePurgeTombstones | backend/db/psql/tombstone.go:66-84 | adds exactly the usable keys |
| Purge.SubjectStore.CheckName | backend/workers/djen/worker.go:343-350 | a name passes the check exactly when none of its usable keys is in the table |
| Purge.SubjectStore.UpsertName | backend/workers/djen/worker.go:351-364 | the write that follows, at any later time, puts the node at its id unless the writer refuses the name |
| Purge.SubjectStore.DeleteNode | backend/db/memgraph/backoffice_writer.go:236-243 | the node goes and its name is owed a tombstone |
| Purge.SubjectStore.MarkPurged | backend/api/backoffice.go:746-751 | the usable keys of the name are written |
| Purge.SubjectStore.ResolvePurge | backend/api/backoffice.go:716-774 | gate, deletion, tombstones, scrub and resolution in this order, ending at the first that fails |
| Purge.ReplayIsRefused | backend/api/backoffice.go:717-723 | a resolved request changes nothing when it is posted again |
| Purge.FailedPurgeIsNotRetried | backend/api/backoffice.go:724-774 | when the tombstones or the scrub fail, the node is gone, posting the request again changes nothing, and it stays pending |
| Purge.PurgeFailsIff | backend/api/backoffice.go:741-774 | a purge of a node stays pending exactly when the name is not blank and its tombstones or its scrub fail |
| Purge.PurgeLeadsThere | backend/api/backoffice.go:724-751 | whatever the table held, deleting the node and writing its tombstones leaves it gone and its spelling stopped if its key is usable |
| Purge.NodesStayNamed | backend/db/memgraph/djen_writer.go:74-161 | over every run a node sits at the id its stored spelling derives |
| Purge.IdDeterminesSlug | backend/db/memgraph/djen_writer.go:194-209 | equal ids mean the same kind of node and the same slug |
| Spellings.SlugsAgreeIff | backend/db/memgraph/djen_writer.go:194-205 | two names of words without '/', '_', '?', '#' and '%' share a slug exactly when they are the same words in order up to case |
| Spellings.MarksAreGlue | backend/db/memgraph/djen_writer.go:194-205 | between two such words each of the five characters gives the slug that a space gives |
| Spellings.NodeIdsAre | backend/db/memgraph/djen_writer.go:202-209 | the three kinds of node have their own prefix before the slug |
| Purge.PurgedStaysGone | backend/workers/djen/worker.go:338-365 | once a tombstone stands and no ingest is in flight, no interleaving of checks, writes and purges brings the node back through a spelling that shares the key |
| Purge.PurgeHoldsIff | backend/api/backoffice.go:741-823 | for every store, over every spelling and interleaving, a node that is gone stays gone exactly when every spelling of its slug is stopped by a tombstone and no ingest of it is between its check and its write |
| Purge.WordIsSealedIff | backend/db/psql/tombstone.go:18-62 | for a name whose slug has no '_', every spelling is stopped exactly when its own is |
| Purge.FirstPurgeHoldsIff | backend/api/backoffice.go:741-823 | the first purge made holds exactly when the slug has no '_', the key is usable and no ingest is in flight |
| Purge.PurgeHoldsForPlainNamesIff | backend/api/backoffice.go:741-823 | over plain spellings, whatever the table holds, a name with no ingest in flight stays gone exactly when its spelling with '/' for '_', '?', '#' and '%' is stopped |
| Purge.TwoWordsReturn | backend/db/memgraph/djen_writer.go:194-205 | two words joined by an underscore have the same slug as with a space, and another key |
| Purge.AnaLimaReturns | backend/db/memgraph/djen_writer.go:194-205 | the witness "ANA LIMA" and "ANA_LIMA" |
| Erasure.Snapshot.Insert | backend/workers/djen/worker.go:264-321 | what a poll records of its roster joins the snapshot, row by row; nothing recorded changes |
| Erasure.Snapshot.DeleteName | backend/db/psql/tombstone.go:96-107 | removes exactly the rows of this name, up to case and outer spaces, and counts them; a blank name removes none |
| Erasure.MatchesIff | backend/db/psql/tombstone.go:104-107 | a row shows a name exactly when they are the same letters up to case, but for the outer spaces of the name |
| Erasure.NameIsLegibleIff | backend/workers/djen/worker.go:264-321 | over any polls and scrubs, a name is legible in the snapshot exactly when it was, or a poll recorded a party of that name, and no scrub of the name came after |
| Erasure.RecordsNameIff | backend/workers/djen/worker.go:264-321 | a poll that goes through records a name exactly when a mention of it is the first of its key and the key is free |
| Erasure.ScrubbedNameReturnsIff | backend/db/psql/tombstone.go:86-107 | after a scrub the name returns with the next poll that goes through exactly when that poll so lists it |
| OwnershipCrawl.Crawler.EnrichOne | backend/workers/cnpj/worker.go:180-229 | the nodes it leaves are the company's and its unpurged partners', and those of them that are new are to be followed |
| OwnershipCrawl.Crawler.Run | backend/workers/cnpj/worker.go:89-136 | ends on every graph; each CNPJ is fetched once at most, at a depth it really has, within the ceiling; unless a write fails midway, exactly those within the ceiling, each at its least depth; the graph and the errors are those of the fetches |
| OwnershipCrawl.HoldingIs | backend/workers/cnpj/worker.go:180-229 | the graph then holds what it held, each company found, its partners that are not purged, and those written before a fetch failed |
| OwnershipCrawl.FailuresAre | backend/workers/cnpj/worker.go:89-136 | the errors counted are the fetches that failed |
| OwnershipCrawl.WithinIsFetched | backend/workers/cnpj/worker.go:286-310 | when the queue is empty, everything within the ceiling of a root was fetched |
| CaseGraph.CaseGraph.MoveAll | backend/db/memgraph/org_cnpj.go:68-93 | the three statements, row by row, hand every movable edge to the survivor and change nothing else |
| CaseGraph.CaseGraph.MergeInto | backend/db/memgraph/org_cnpj.go:68-124 | moves, names, deletes unless an edge is left, and stamps the survivor |
| CaseGraph.CaseGraph.AttachOrganizationCNPJ | backend/db/memgraph/org_cnpj.go:23-125 | rejects a bad CNPJ, documents a node when the CNPJ is free, merges into a holder otherwise |
| CaseGraph.CaseGraph.EnsureDjenDefendantEdge | backend/db/memgraph/djen_writer.go:166-184 | when both ends exist the edge is there and reads the outcome and source "djen", its other properties and all other edges as before; otherwise nothing changes |
| CaseGraph.CaseGraph.EnsurePoliticianDefendantEdge | backend/db/memgraph/backoffice_writer.go:294-374 | confirms the edge exactly when both trimmed ids name a Politician and a proceeding; it then reads "confirmed" from "backoffice_review" and nothing else changes |
| CaseGraph.CaseGraph.SetDefendantOutcome | backend/db/memgraph/outcomes.go:156-192 | on an edge that exists into a proceeding "acquitted", "dismissed", "indicted" and "cited" are always recorded, "convicted" exactly with evidence, any other text never; the edge then reads that outcome by a human with its evidence, operator and date, and nothing else changes |
| CaseGraph.CaseGraph.PurgePersonNode | backend/db/memgraph/backoffice_writer.go:215-248 | detaches and deletes exactly Person and Organization nodes, and nothing else |
| OrgMerge.MergeSucceedsIff | backend/db/memgraph/org_cnpj.go:105-114 | the merge goes through exactly when every edge of the source accuses it in a proceeding, implicates it in a scandal or controls it from another node |
| OrgMerge.MergeUnites | backend/db/memgraph/org_cnpj.go:68-114 | no edge mentions the deleted node, common edges carry both nodes' properties, every other edge is untouched |
| OrgMerge.MergeConserves | backend/db/memgraph/org_cnpj.go:68-114 | the survivor's cases, scandals and owners are the unions of both nodes' |
| OrgMerge.MergeJoinsProperties | backend/db/memgraph/org_cnpj.go:68-93 | each of these edges has both nodes' properties, the source's winning |
| OrgMerge.MergeKeepsNames | backend/db/memgraph/org_cnpj.go:95-124 | the survivor keeps its document, and its name if it has one; a merge that goes through says who merged and when; no third node changes |
| OrgMerge.FreeCnpjIsDocumented | backend/db/memgraph/org_cnpj.go:39-66 | a CNPJ nobody else holds is written on the Organization by hand, and nothing else changes |
| OrgMerge.FailedMergeKeepsTheSource | backend/db/memgraph/org_cnpj.go:105-114 | a failed merge keeps the source node and every edge of it no statement moves, with its properties unless a loop of control on the source is merged into the edge that controls the survivor; such an edge exists |
| OrgMerge.AttachKeepsOnePerCnpj | backend/db/memgraph/org_cnpj.go:23-125 | at most one Organization holds a CNPJ, in both branches and on failure; on success the returned node holds it |
| OrgMerge.AttachSucceedsIff | backend/db/memgraph/org_cnpj.go:39-125 | for an Organization it succeeds exactly when the CNPJ is free or every edge can be moved; for anything else exactly when the CNPJ is taken, and then no edge moves |
| Evidence.StepKeepsBacked | backend/db/memgraph/outcomes.go:144-182 | every writer keeps each conviction backed by a recorded decision, the property overlay of a merge included |
| Evidence.ConvictionsAreRecordedDecisions | backend/db/memgraph/outcomes.go:144-192 | after any run, a "convicted" edge carries the evidence, operator and date of a conviction an operator recorded in that case |
| Evidence.ConvictionNeedsEvidence | backend/db/memgraph/outcomes.go:144-182 | a "convicted" edge has source "human" and a non-empty evidence URL in every reachable state |
| Evidence.OriginsDecide | backend/db/memgraph/outcomes.go:144-182 | over any execution, merges and purges included, an edge carries the outcome and the record of its origins: its own last writer, or the edge last merged into it |
| Evidence.OutcomeIsTheRecordedIff | backend/db/memgraph/outcomes.go:144-182 | its outcome is that of the decision it carries the record of exactly when both come from the same event, or a citation's outcome and a decision of "cited" |
| Evidence.MergeOverwritesDecision | backend/db/memgraph/org_cnpj.go:68-93 | a merge with a source whose edge is only cited turns a recorded conviction into "cited" beside the decision's evidence |
| Evidence.AttachIsAnEvent | backend/db/memgraph/org_cnpj.go:23-125 | an attachment nobody interrupts documents a node, merges two, or changes nothing |
| Evidence.StatementsAreTheMerge | backend/db/memgraph/org_cnpj.go:68-124 | the six statements of a merge, when nothing comes between them, are the merge |
| Evidence.AcceptedIff | backend/db/memgraph/outcomes.go:30-42 | what an operator may record, outcome by outcome |
| Evidence.LastWriterDecides | backend/db/memgraph/outcomes.go:144-182 | an edge no merge or purge touches carries the outcome of its last citation, confirmation or accepted decision and the record of its last accepted decision |
| Evidence.UntouchedOutcomeIsTheRecordedIff | backend/db/memgraph/outcomes.go:144-182 | for such an edge, the outcome is the one last recorded exactly when nothing wrote it since, or a citation wrote it last and the decision was "cited" too |
| Evidence.CitationOverwritesDecision | backend/db/memgraph/djen_writer.go:166-184 | an execution in which a citation after a decision replaces the outcome and leaves the rest of the record |
| Evidence.ConfirmationOverwritesDecision | backend/db/memgraph/backoffice_writer.go:294-374 | one in which a confirmed match does, with an outcome no operator can record |
| Roster.RosterFromItems | backend/workers/djen/worker.go:663-689 | the nested loop keeps the first mention of each key |
| Roster.RosterIsExact | backend/workers/djen/worker.go:660-689 | keys are distinct, cover exactly the parties mentioned, and each entry is its key's first mention |
| Roster.KeyIff | backend/workers/djen/worker.go:703-705 | keys agree exactly when normalized names and poles do, or one party is the other with the separator shifted, which takes a pole that holds it |
| Spellings.NamesAgreeIff | backend/workers/djen/worker.go:886-914 | two names are one to the roster exactly when they are the same words in order up to case and the listed accents |
| Spellings.PolesAgreeIff | backend/workers/djen/worker.go:703-705 | poles agree when they are the same letters up to case and outer space |
| Spellings.JoseIsOneParty | backend/workers/djen/worker.go:703-705 | witness: "JOSÉ" and "JOSE" with one pole are one party |
| Roster.BarCollides | backend/workers/djen/worker.go:703-705 | two parties whose name and pole are the same three words, split at either of two separators, share a key |
| Roster.RosterDelta | backend/workers/djen/worker.go:692-701 | the parties whose key is not in the snapshot, in order |
| Roster.DeltaIsFresh | backend/workers/djen/worker.go:692-701 | the delta's keys are distinct and are the roster's less the snapshot's |
| Roster.CaseRoster.PollCase | backend/workers/djen/worker.go:264-321 | a poll handles and then records its new parties, and may fail before or between the two writes of any of them |
| Roster.RecordedOnce | backend/workers/djen/worker.go:264-321 | whatever polls fail, no party is recorded twice and the snapshot is what was recorded |
| Roster.HandledHowOften | backend/workers/djen/worker.go:264-321 | a party is handled once when recorded as a defendant, and once more for each poll that failed between handling and recording it |
| Roster.HandledOnceIff | backend/workers/djen/worker.go:264-321 | a recorded defendant was handled exactly once if and only if no poll failed at that point |
| Roster.TwoPollsHandleTwice | backend/workers/djen/worker.go:264-321 | two polls of the same communications, the first failing there, handle the defendant twice |
| Roster.AnaIsHandledTwice | backend/workers/djen/worker.go:264-321 | such communications, with the worker's own key |
| Roster.PollsAreOnePoll | backend/workers/djen/worker.go:264-321 | polls that go through record what one poll of all their communications would: each party once, from the first poll that shows it; and handle the defendants among them |
| Roster.PoleDecides | backend/workers/djen/worker.go:274-276 | a roster lists a key as a defendant's exactly when its first mention says "P" |
| Roster.DefendantIsHandledIff | backend/workers/djen/worker.go:264-321 | over polls that go through, a party is acted on exactly when it is new and the first mention of its key, in any poll, says "P" |
| Roster.LowerCasePoleShadows | backend/workers/djen/worker.go:274-276 | witness: a first mention with pole "p" takes the place of a later one with "P", and nothing is handled |
| Fold.FoldQuery | backend/db/memgraph/fold.go:75-81 | the replacements in turn equal one character map on the trimmed, lower-cased term |
| Fold.FoldExpr | backend/db/memgraph/fold.go:64-70 | so do the nested replacements over an ASCII lower-casing |
| Fold.InTurnIsAtOnce | backend/db/memgraph/fold.go:25-45 | replacements that never touch what an earlier one wrote act as one substitution |
| Fold.TheTableFoldsAccents | backend/db/memgraph/fold.go:32-45 | the table in force lists both cases of each letter with one plain lower-case image |
| Fold.BasesAre | backend/db/memgraph/fold.go:25-45 | the base of each letter listed; no other character is folded |
| Fold.JoseIsFound | backend/db/memgraph/fold.go:8-23 | witness: "jose" finds "JOSÉ" on both sides |
| Fold.FoldIsIdempotent | backend/db/memgraph/fold.go:72-81 | folding a folded term changes nothing |
| Fold.SidesAgreeOnStringsIff | backend/db/memgraph/fold.go:64-81 | both sides fold a string alike exactly when it has no outer whitespace and no capital the table leaves out |
| Fold.SearchFindsIff | backend/db/memgraph/fold.go:8-23 | the folded term occurs in the folded name exactly when some stretch of the name spells the term up to case and accents |
| Fold.StoredSearchFindsIff | backend/db/memgraph/fold.go:47-81 | with the field folded by the database, exactly when some such stretch holds none of the capitals the table leaves out |
| ExpandState.ExpandState.Init | frontend/components/GraphCanvas.tsx:210-230 | the adjacency is what the links join, on both sides, for the nodes of the canvas, which keeps the last node listed under an id; what shows is the nodes whose own flag says scandal |
| ExpandState.ExpandState.Recompute | frontend/components/GraphCanvas.tsx:241-251 | visible = scandals, expanded nodes and their neighbours |
| ExpandState.ExpandState.Toggle | frontend/components/GraphCanvas.tsx:254-261 | opens a closed node, closes an open one, and keeps visibility derived |
| ExpandState.ExpandState.Collapse | frontend/components/GraphCanvas.tsx:263-267 | leaves exactly the nodes whose own flag says scandal |
| ExpandState.ParityDecides | frontend/components/GraphCanvas.tsx:254-261 | after any clicks a node is open according to the parity of its clicks |
| ExpandState.ClicksCommute | frontend/components/GraphCanvas.tsx:254-261 | clicks commute, and doing them again undoes them |
| ExpandState.VisibleNodesAreAnchored | frontend/components/GraphCanvas.tsx:232-240 | a visible node that is neither a scandal nor open has a link to an open, visible node |

## Left out

- PurgedStaysGone: speaks of ingests behind the name check; enrichment merges, the single-CNPJ lookup and document keys do not consult it or are not modelled.
- ResolvePurge: nodes that are not purgeable, the audit log and a failing last update of the request.
- KeyIsIdempotent: is about the part of a key after its prefix; normalising a whole key prefixes it once more.
- UpsertName: the nodes carry only id and spelling; provenance, edges and reviews of the handlers are not modelled.
- ApplyAll: the link from a record to its subject, and the failures of that link, are not modelled.
- RunRegistry: its listing clauses are for runs without a page limit, since a limited run never sweeps; the saved import state is not modelled.
- Run: of the sanctions worker, over CGU groups only, with the TCU lists and the API key left out; of the ownership crawl, the partners written before a write fails are dropped from that run, as in the source, so exactness is stated for runs in which no write fails midway.
- ConcurrencyIsInvisible: runs are not cancelled, the consumer's writes succeed, and a lookup's answer does not depend on when it is made.
- DeriveCaseState: movements without a timestamp that parses; the source's comparator is not an order on those.
- RecordPoll: last movement ids, poll times, INVESTIGATES edges and the check of the TPU codes.
- Wait: cancellation; the clock is monotonic and the lock serializes callers.
- Post: the sleeping itself, reading the body, and the DJEN client's own retry loop.
- AttachOrganizationCNPJ: its contract is for an attachment no other writer interrupts; the rules of the evidence also cover its statements one by one.
- ConvictionsAreRecordedDecisions: starts, like OriginsDecide, from a graph without DEFENDANT_IN edges.
- PollCase: what handling a defendant writes, and the matching of politicians and companies before it.
- DeleteName: the scrub's deletions of pending aliases and of reviews that mention the name.
- TrackingLatches: is for runs that do not overlap; RowIsLastWrite has no such condition.
- Windows: years before 2020, for which the source allocates a list of negative size, and the formatting of dates.
- Letters beyond ASCII and Latin-1, and case mappings that change the length of a string.
- HTTP, JSON, CSV and driver code, rendering, authentication, and the backoffice's review statuses.
- The TCU lists, the selection of registries, and the name mode, politician matching and company heuristic of the DJEN worker.
- The 5% guard is a cross-multiplication; rounding of the source's floating-point comparison is not modelled.
