# EEBUS in Dafny

A model of the sans-IO EEBUS stack, with proofs about the parts of it that are easy to get subtly
wrong. Everything is stated for all inputs, all runs and all reachable states; nothing is bounded.
`dafny verify dfyconfig.toml` checks it.

Pure code is modelled by functions. Code that loops or updates its state in place is modelled by
methods and classes, each proved equal to a function on values, and the laws are lemmas about those
functions. Where the code falls short of what one would expect of it, the code is modelled as it is and
the exact condition under which the expectation holds is proved, both ways.

## What is modelled

**Time** (`Calendar`, `Timestamp`, `Decimal`, `DecimalForms`, `TimestampText`, `TimestampForm`,
`DurationText`, `DurationForm`). The closed-form
Gregorian calendar is proved against a calendar that is stepped day by day; it uses Rust's truncating
division and, where it says so, 32-bit years that wrap. The readers are proved against the lexical form
of `xs:dateTime` (section 3.2.7 of XML Schema Part 2) and against component-wise ISO 8601 durations,
both given as spelled fields and what those stand for. A timestamp's year, offset, clock and `24:00:00`
rollover have a meaning of their own, by the schema and the stepped calendar; what reader and meaning
share is the value of a run of digits and the nine digits of a fraction, which is proved to be the fraction
cut off. Both writers write a normal form, and each timestamp and duration has one text of that form.

**Restricted Function Exchange**, section 5.3.4 of the SPINE Protocol Specification (`Model`,
`Merging`, `Filters`, `FilterPaths`, `Entries`, `EntryLaws`, `EntryDeletes`). A type is data (`Schema`), a value is a recursive
record, and merge, identity, filters and selectors are what the macros generate for that type. The
laws say when updates associate, compose, repeat and undo, and that the scan over a list is a keyed map;
what a filter takes away and leaves is said along every path into an entry, and which entries a command
concerns by their positions.

**Wire codec**, section 11.4 of SHIP 1.1.0 (`Json`, `Codec`, `CodecLaws`, `RecordReading`, `Payload`).
Directed by the same types, from JSON trees. `Cmd` and `Filter`, whose codecs are written by hand, are
proved to be the schema-directed codec of their fields.

**Certificate updates**, section 12.1.3 of SHIP 1.1.0 (`SkiText`, `Keys`, `OwnKeyLaws`, `PeerKeyLaws`).
A node's own keys over every run of changes, and a peer fed any selection of its announcements, in any
order and any number of times.

**Connection table**, sections 8.1, 10.4 and 12.2.3 of SHIP 1.1.0 (`Policy`, `HubState`, `Hub`,
`HubRuns` and the `Hub…` modules of laws). `HubState` says what each operation makes of the table, the class in
`Hub` does it in place, and `HubRuns` puts the table together with the handshakes that run in the
background. A run is any sequence of steps: sockets, dials, handshakes that end either way, datagrams,
pongs, timers, arbitration, closing.

**Trust and pairing**, sections 4.3 and 10.2 to 10.4 of the SHIP Pairing Service (`Trust`, `Pairing`).

**Scaled numbers** (`Values`), over exact reals.

## Where the code holds less than it seems to

- A timestamp of the year -2147483648 is printed and cannot be read back, since the reader negates a
  year that does not fit; nor can one whose offset exceeds fourteen hours, which the type admits
  (`TimestampText.PrintedReadsBack`).
- `24:00:00` on 31 December 2147483647 wraps to the first day of year -2147483648
  (`TimestampText.RolloverIsNextDate`), and January and February of the least year wrap the day number
  (`Calendar.CompiledCalendarIsExact`), so a timestamp of that year that moving to UTC takes across
  the first of March comes back as another instant (`Timestamp.InstantsSurviveUtc`).
- Merging is not associative over a choice that holds something mergeable: leaving a variant and coming
  back forgets what was there (`Merging.AssociativityIsDecidedByTheType`), so updates of entries with such
  an element do not compose (`EntryLaws.CompositionIsDecidedByTheType`).
- Lists inside an entry merge by replacement, so a partial read cut down inside a repeated element
  cannot be merged back (`EntryLaws.PartialReadMergesBack`), unless the filter names all there is in it.
- A present but empty repeated choice group is not on the wire and reads back as absent
  (`CodecLaws.EncodedReadsBack`); the same goes for the empty selectors of a filter (`Payload.CmdReadsBack`).
- A comment beside the record decoder says that some peers send a plain object; the decoder asks for a
  sequence (src/codec/macros.rs:214), so that form is refused (`RecordReading.DocumentIsItsPairs`).
- A dial that reaches this node itself is refused, and the comment beside it (src/runtime/hub.rs:1829) says
  that it is not to be repeated; but the entry forgotten there is that of this node, which is never
  remembered, so the peer that was looked for is due again at once and without any delay
  (`HubSchedule.DueAgainAfterReachingSelf` says exactly when).
- The SKI reader skips underscores as well, which its comment does not mention (src/ship/ski.rs:89,
  `SkiText.SeparatorsAreIgnored`).
- Once the update counter has saturated, announcements that overtake each other are no longer told apart,
  and a peer may be left with the keys of an older one; it matters exactly when the older one asks for
  other keys on the curve (`PeerKeyLaws.HistoryIsFollowedExactly`).
- Four slots limit the requests for trust on record, not the peers that wait: a second handshake of a peer
  waits without a slot, and when the first one fails its slot goes to somebody else
  (`HubWaiting.FiveCanWait`; `HubWaiting.OnRecordUnlessStranded` says exactly when the limit does hold).
- Arbitration is not told when the probe went out and looks at the first duplicate record only, so the
  laws about it promise no wait for a pong and no prompt handling of a second peer
  (`HubArbitration.ArbitrationEnds`).

## Model

| member | source | states |
|---|---|---|
| `Calendar.NextDateIsNextDay` | src/model/time.rs:676-705 | the closed-form day number grows by exactly one from any date to the calendar's next date, across months, leap days, centuries and eras of either sign |
| `Calendar.ClosedFormIsCalendar` | src/model/time.rs:697-719 | for every day number, both closed forms agree with stepping the calendar that many days from the epoch |
| `Calendar.DaysAndDatesAreInBijection` | src/model/time.rs:697-719 | the two closed forms are mutually inverse between all integers and all valid proleptic Gregorian dates |
| `Calendar.DateOfDayInvertsDayNumber` | src/model/time.rs:697-719 | the date of a date's day number is that date, whatever era, leap cycle and month it falls in |
| `Calendar.DayNumberIsMonotone` | src/model/time.rs:697-705 | one date is before another if and only if its day number is smaller |
| `Calendar.CompiledCalendarIsExact` | src/model/time.rs:697-719 | with the 32-bit year as compiled, `civil_from_days` is the calendar date exactly when that date's year fits, and the round trip through `days_from_civil` is exact exactly when the March-based year fits |
| `Calendar.CompiledDayNumberIsExact` | src/model/time.rs:697-705 | for a date whose March-based year fits 32 bits, the compiled day number is that date's day, and is far inside 64 bits |
| `Timestamp.UnixTimeRoundTrips` | src/model/time.rs:407-466 | `from_unix_seconds(s).unix_seconds() == s` if and only if the March-based year of that day fits 32 bits, for every integer `s` |
| `Timestamp.UnixTimeNamesTheCalendarDay` | src/model/time.rs:440-466 | the date written for an instant is the calendar's date of that day if and only if its year fits 32 bits |
| `Timestamp.InstantsSurviveUtc` | src/model/time.rs:419-466 | the instant of any timestamp, in its own or a supplied zone, fits 64 bits, and it survives being rewritten in UTC if and only if that does not take it across the first of March of the least 32-bit year |
| `Timestamp.UtcTimestampsRoundTrip` | src/model/time.rs:419-466 | a whole-second UTC timestamp is what its own instant is written as |
| `Timestamp.InstantIs` | src/model/time.rs:407-435 | the instant is the calendar day times 86 400 plus the clock, less the offset carried or, failing that, the one supplied; without either there is none |
| `TimestampText.ReadFraction` | src/model/time.rs:639-645 | the nine-step loop reads any run of digits as its first nine, filled up with zeros |
| `TimestampText.TrimFraction` | src/model/time.rs:510-516 | the loop that drops trailing zeros leaves the nine-digit text without them |
| `TimestampText.ReaderIsTheLexicalForm` | src/model/time.rs:551-673 | the reader accepts a text and reads a timestamp from it if and only if the text spells fields of the `xs:dateTime` lexical form that mean that timestamp by the schema and the stepped calendar: year, clock, offset, and `24:00:00` as the next date |
| `TimestampText.DenotesIsMeaning` | src/model/time.rs:551-673 | the year check, the offset check, the field checks and the rollover of the reader give that meaning and no other |
| `TimestampText.ReadsSpelling` | src/model/time.rs:551-673 | every well-shaped text is read as what its fields denote, refusals included |
| `TimestampText.AcceptedIsValid` | src/model/time.rs:551-627 | whatever text is accepted, the result is a date of the calendar and a time of day, with an offset within fourteen hours |
| `TimestampText.RolloverIsNextDate` | src/model/time.rs:604-627 | midnight ending a day is the calendar's next date, except after 31 December of the last 32-bit year, where the cast wraps the year round |
| `TimestampText.MidnightEndingTheDay` | src/model/time.rs:604-627 | `24:00:00` reads as `00:00:00` of the next day of the same text's date, offset kept, while that day's year exists |
| `TimestampText.PrintedReadsBack` | src/model/time.rs:492-673 | a printed timestamp reads back unchanged if and only if its year is not the least 32-bit one and its offset is within fourteen hours: negative and long years and every fraction included |
| `TimestampForm.PrintedIsNormal` | src/model/time.rs:492-525 | what is written has its hour on the clock, no fraction ending in a zero, no sign on the year zero and `Z` for no offset, and means the timestamp |
| `TimestampForm.NormalIsPrinted` | src/model/time.rs:492-525 | any text of that form that means the timestamp is the one written: the canonical text is unique |
| `Decimal.PaddedReadsBack` | src/model/time.rs:492-525 | a zero-padded number reads back, and is exactly as wide as asked for when it fits and wider without a leading zero when it does not |
| `Decimal.TrimmedNanosReadBack` | src/model/time.rs:510-516 | nanoseconds printed to nine digits and trimmed read back exactly |
| `DecimalForms.FractionIsCutOff` | src/model/time.rs:639-645 | a fraction of any number of digits is read as the whole nanoseconds it holds, cut off and not rounded |
| `DurationText.ReadPart` | src/model/time.rs:183-239 | one scan over a part of the text, accumulating seconds, nanoseconds and the pending number, stops early exactly where the step function has no successor state |
| `DurationText.ParseIso8601Duration` | src/model/time.rs:162-259 | the sign, the `P`, the two parts and the two loops together are the reader whose laws follow |
| `DurationText.ReadsSpelled` | src/model/time.rs:162-259 | a well-formed duration text denotes the exact sum of its components, zero if negative, and is refused exactly when it has none or the sum overflows 64 bits: no checked operation fails otherwise |
| `DurationText.ReaderIsTheSum` | src/model/time.rs:162-259 | the reader returns a duration for a text if and only if the text spells legal components that add up to it |
| `DurationText.FormatIso8601Duration` | src/model/time.rs:271-304 | the writer's text is the components of the duration, zero pieces left out and the last kept |
| `DurationText.WrittenReadsBack` | src/model/time.rs:162-304 | every duration of 64-bit seconds and any nanoseconds reads back exactly from its printed form |
| `DurationForm.WrittenIsTheNormalForm` | src/model/time.rs:277-304 | a text is the one written for a duration if and only if it means it and has days, hours below 24, minutes below 60 and seconds below 60, each at most once, in order, without padding, and none zero but the seconds of a text that says nothing else |
| `DurationForm.WeeksAreSevenDays` | src/model/time.rs:162-239 | any number of weeks is read as seven times as many days |
| `DurationText.UnionIsUnambiguous` | src/model/time.rs:83-140 | no text is both a duration and a timestamp, so the union reads a text as one form if and only if that form's own reader accepts it |
| `DurationText.WrittenTimeValuesReadBack` | src/model/time.rs:57-140 | a printed duration always reads back as relative; a printed timestamp reads back as absolute if and only if it is in the range of the round trip |
| `Merging.MergeIsIdempotent` | src/codec/mod.rs:138-190 | merging any value into itself changes nothing |
| `Merging.MergeAbsorbs` | src/codec/mod.rs:138-190 | merging the same update a second time changes nothing more |
| `Merging.EarlierMergeIsRepeated` | src/codec/mod.rs:138-190 | when an update comes again later, its earlier application makes no difference, whatever was merged in between and whatever choices changed |
| `Merging.MergeKeepsType` | src/codec/macros.rs:59-64 | a merge of two values of a type is a value of the type |
| `Merging.MergeAssociates` | src/codec/macros.rs:59-64 | merging is associative on every type without a choice that could forget merged parts |
| `Merging.AssociativityIsDecidedByTheType` | src/codec/macros.rs:681-695 | over every inhabited type, merging associates for all values if and only if no choice with two alternatives holds a part that merges: replacing a different variant is what breaks it, and a counterexample is built for every such type |
| `Filters.NamedIsRetained` | src/codec/macros.rs:864-937 | a filter retains a value whole if and only if it names every element the value has, at every depth |
| `Filters.SplitMergesBack` | src/codec/macros.rs:864-937 | what an elements filter clears and what it retains merge back to the value, at any depth, if and only if the filter names all of each occurrence of the repeated elements it descends into with a populated `nested_each` |
| `Filters.RetainedMergesBack` | src/codec/macros.rs:864-937 | a partial read merged into the value it was taken from leaves it unchanged under exactly the same condition |
| `Filters.PlainFiltersMergeBack` | src/codec/macros.rs:864-937 | so with a filter that has no populated `nested_each` at any depth both merge back, whatever the value |
| `Filters.EmptyIsUnset` | src/codec/macros.rs:53-56 | a filter counts as empty if and only if it sets nothing, at any position |
| `FilterPaths.ClearedAt` | src/codec/macros.rs:864-907 | after a clear, a path through fields and items still leads to what it led to if and only if the filter does not name it, at any depth: a named leaf or whole nested element is gone, everything else is unchanged |
| `FilterPaths.RetainedAt` | src/codec/macros.rs:874-938 | after a retain, a path leads to what it led to if and only if the filter spares it, and to nothing otherwise |
| `FilterPaths.PathsDecide` | src/codec/macros.rs:864-938 | two values that agree along every path are the same, so the path laws fix the outcome |
| `Entries.Find` | src/codec/macros.rs:813-833 | the scan stops at the first stored entry with the identity of the incoming one, and at none before |
| `Entries.EntryList.ApplyFull` | src/model/rfe.rs:266-268 | a full update replaces the stored entries outright, absence included |
| `Entries.EntryList.ApplyPartial` | src/model/rfe.rs:274-290 | the in-place loop is the upsert of each incoming entry in order; an absent update changes nothing, an absent list is created |
| `Entries.EntryList.FindEntry` | src/model/rfe.rs:280-287 | the inner loop finds the first entry addressed, or none |
| `Entries.EntryList.DeleteEntries` | src/model/rfe.rs:293-304 | what the update names is removed and the rest keeps its order; an absent list or update changes nothing |
| `Entries.EntryList.DeleteAddressed` | src/model/rfe.rs:321-328 | exactly the addressed entries are removed |
| `Entries.EntryList.ClearAddressed` | src/model/rfe.rs:340-353 | the named elements of the addressed entries are cleared, their identity restored, others untouched |
| `Entries.EntryList.DeleteRestricted` | src/codec/macros.rs:1058-1130 | the four combinations of selectors and elements, refusal of a selector that cannot be matched included |
| `Entries.EntryList.RestrictList` | src/model/rfe.rs:176-252 | a partial read is the selected entries cut down to the elements kept, identity restored; refused exactly for an unsupported selector |
| `Entries.EntryList.CutDown` | src/model/rfe.rs:195-211 | each chosen entry is cut down on its own |
| `EntryLaws.MergeKeepsIdentity` | src/codec/macros.rs:813-833 | merging two records of one entry keeps that entry's identity |
| `EntryLaws.UpsertKeepsIdentities` | src/model/rfe.rs:274-290 | an update leaves the position and identity of every stored entry alone |
| `EntryLaws.ApplyKeepsDistinct` | src/model/rfe.rs:274-290 | distinct identities stay distinct |
| `EntryLaws.ApplyUpserted` | src/model/rfe.rs:274-290 | an entry merged into an update before it is applied, or into the list after: the same list, order included |
| `EntryLaws.PartialUpdatesCompose` | src/model/rfe.rs:274-290 | applying `u` and then `v` is applying once what `v` makes of `u`, for any stored list, any `v`, distinct `u` and types without a forgetting choice outside the identifying elements |
| `EntryLaws.CompositionIsDecidedByTheType` | src/model/rfe.rs:274-290 | over every inhabited entry type, updates compose for all lists if and only if no element outside the identifying ones has a choice that forgets merged parts |
| `EntryLaws.PartialUpdateIsIdempotent` | src/model/rfe.rs:274-290 | applying an update twice is applying it once if and only if every entry of it is identified; duplicates in the update and nested choices allowed |
| `EntryLaws.ApplyRefinesMap` | src/model/rfe.rs:274-290 | on identified lists the scan does what a map from identity to record with per-key merge does, stored entries keeping their position and new ones appending in order of arrival |
| `EntryLaws.DeleteThenApplyReplaces` | src/model/rfe.rs:274-304 | deleting what an update names and then applying it leaves exactly the other entries followed by the update's records |
| `EntryLaws.PartialReadMergesBack` | src/model/rfe.rs:176-252 | a partial read merged back into its list changes nothing if and only if every entry returned is identified and, outside the identity, every repeated element the filter descends into is one it names in full |
| `EntryLaws.PlainReadMergesBack` | src/model/rfe.rs:176-252 | for a filter without a populated `nested_each`, if and only if every entry returned is identified |
| `EntryLaws.DeletedPartsCanBeRestored` | src/model/rfe.rs:340-353 | reading parts of a list, deleting those parts and writing the reply back restores the list under exactly that condition |
| `EntryDeletes.DeletedAreGone` | src/codec/macros.rs:1058-1115 | a delete without an elements filter leaves, in order and with multiplicity, exactly the stored entries it does not concern |
| `EntryDeletes.DeletedPartsAreGone` | src/codec/macros.rs:1095-1115 | a delete with one keeps every entry in place, changes none it does not concern, and takes from the others exactly the elements named, identifying ones excepted |
| `EntryDeletes.WithoutAreTheRest` | src/model/rfe.rs:293-329 | the entries not addressed are the stored list at its increasing positions not addressed |
| `EntryDeletes.AddressedAreThose` | src/model/rfe.rs:176-208 | the entries addressed are the stored list at its increasing positions addressed |
| `EntryDeletes.RestrictedAre` | src/model/rfe.rs:176-213 | a partial read answers with exactly the selected entries, in order, each with its identity and what the filter spares |
| `EntryDeletes.ClearedEntryAt` | src/model/rfe.rs:340-354 | of an addressed entry, an element is gone if and only if the filter names it and it does not identify the entry |
| `EntryDeletes.RetainedEntryAt` | src/model/rfe.rs:200-208 | of a selected entry, an element is there if and only if it was and the filter spares it or it identifies the entry |
| `EntryDeletes.MatchesIsPicks` | src/codec/macros.rs:960-970 | selectors match exactly the entries that have, under each name asked for, the value asked for |
| `EntryDeletes.SelectingIsNaming` | src/model/rfe.rs:308-318 | selectors that ask for an entry's identity address the very entries that naming it does |
| `EntryDeletes.DeleteThenApplyIs` | src/model/rfe.rs:274-306 | deleting what an update names and applying it gives the stored entries it does not name, in order, followed by its own |
| `Codec.Target.VisitObject` | src/codec/macros.rs:147-170 | one object's pairs fill the record in order: a known key decodes into its slot, an unknown one is skipped, a bad value ends it |
| `Codec.Target.VisitArray` | src/codec/macros.rs:174-216 | the array's objects fill one record one after another, and anything but an object ends it |
| `Codec.DecodeValue` | src/codec/macros.rs:84-216 | the in-place decoder computes the decoding function of the schema |
| `Codec.DecodeList` | src/codec/mod.rs:30-110 | a list decodes element by element and fails with the first that does |
| `Codec.DecodeAlternative` | src/codec/macros.rs:712-753 | a choice decodes from a single-key object naming an alternative |
| `Codec.EncodeValue` | src/codec/macros.rs:66-83 | the encoder computes the encoding function of the schema |
| `Codec.EncodeList` | src/codec/macros.rs:66-83 | a list encodes element by element |
| `Codec.EncodeRecord` | src/codec/macros.rs:66-83 | a record encodes as an array of single-key objects, present fields in order of declaration |
| `Codec.PushSlot` | src/codec/macros.rs:66-83 | a slot pushes one object, or one per item of an inline repeated group |
| `CodecLaws.EncodedReadsBack` | src/codec/macros.rs:66-216 | decoding undoes encoding if and only if no choice group in the value is present but empty, for every value of every schema with distinct wire names |
| `CodecLaws.EncodedReadsSettled` | src/codec/macros.rs:66-216 | in every case decoding an encoded value gives the value with its empty groups absent |
| `CodecLaws.DecodedHasType` | src/codec/macros.rs:84-216 | whatever document decodes, the result is a value of the type without empty groups |
| `CodecLaws.LeavesAreRead` | src/codec/mod.rs:70-110 | which documents each kind of single value is read from, and as what |
| `CodecLaws.FirstKnownKeyDecides` | src/codec/macros.rs:726-752 | a choice is read from the first member whose key names an alternative, wherever it stands; the members before and after it do not matter, and without one there is no choice |
| `CodecLaws.CanonicalDocuments` | src/codec/macros.rs:66-216 | a document is canonical if and only if it decodes and re-encoding the result gives that document back |
| `CodecLaws.CanonicalIsEncoded` | src/codec/macros.rs:66-216 | every canonical document is the encoding of some value |
| `CodecLaws.EncodedIsCanonical` | src/codec/macros.rs:66-83 | every value encodes to a canonical document |
| `CodecLaws.DecodedHasCanonicalForm` | src/codec/macros.rs:66-216 | any document that decodes re-encodes to a canonical one with the same meaning |
| `RecordReading.OnlyPairsMatter` | src/codec/macros.rs:126-187 | decoding an array of objects is decoding its flattened pairs: regrouping changes nothing |
| `RecordReading.LastPairWins` | src/codec/macros.rs:126-170 | each slot holds what its own pairs alone make of it, the last one winning and a repeated group taking all; decoding fails exactly when some pair under a known key cannot be read |
| `RecordReading.DocumentIsItsPairs` | src/codec/macros.rs:126-216 | the same for a whole document, non-arrays and non-objects refused |
| `RecordReading.SamePairsSameRecord` | src/codec/macros.rs:126-187 | two documents with the same pairs for each slot decode alike, whatever their grouping, unknown keys and order between slots |
| `RecordReading.UnknownPairsAreSkipped` | src/codec/macros.rs:126-187 | pairs under unknown keys can be inserted anywhere |
| `RecordReading.LaterPairReplaces` | src/codec/macros.rs:126-170 | a later pair for an element that occurs once makes an earlier readable one irrelevant |
| `Payload.ReadValue` | src/codec/macros.rs:664-678 | a key is looked up among the alternatives and its value read only if it names one |
| `Payload.FilterTarget.VisitObject` | src/model/payload.rs:329-359 | one object fills the hand-written filter as it fills the schema-directed record |
| `Payload.FilterTarget.VisitMember` | src/model/payload.rs:338-357 | one pair of a filter: its two named elements first, then selectors, then elements, any other skipped |
| `Payload.CmdTarget.VisitObject` | src/model/payload.rs:166-198 | one object fills the hand-written command as it fills the schema-directed record |
| `Payload.CmdTarget.VisitMember` | src/model/payload.rs:175-196 | one pair of a command: its named elements first, then the data group, any other skipped |
| `Payload.DecodeFilter` | src/model/payload.rs:311-359 | the hand-written filter decoder accepts the documents the schema-directed one accepts, with the same fields |
| `Payload.DecodeFilters` | src/model/payload.rs:175-196 | a list of filters likewise |
| `Payload.DecodeCmd` | src/model/payload.rs:148-198 | the hand-written command decoder is the schema-directed one |
| `Payload.Push` | src/model/payload.rs:109-145 | an element is pushed only if it is present |
| `Payload.EncodeFilter` | src/model/payload.rs:279-308 | the hand-written filter encoder is the schema-directed one |
| `Payload.EncodeFilters` | src/model/payload.rs:109-145 | a list of filters likewise |
| `Payload.EncodeCmd` | src/model/payload.rs:108-145 | the hand-written command encoder is the schema-directed one |
| `Payload.FilterReadsBack` | src/model/payload.rs:279-359 | a filter survives encoding and decoding if and only if its selectors are absent or non-empty |
| `Payload.CmdReadsBack` | src/model/payload.rs:108-198 | a command survives if and only if that holds of each of its filters |
| `Payload.FieldsDecideCmd` | src/model/payload.rs:108-145 | nothing of a command is outside the fields the codec carries |
| `SkiText.WriteHex` | src/ship/ski.rs:70-84 | the loop writes the digits in the case and grouping asked for |
| `SkiText.FromStr` | src/ship/ski.rs:91-116 | the nibble loop is the reader: separators skipped, a foreign character reported before a wrong count |
| `SkiText.WrittenReadsBack` | src/ship/ski.rs:70-116 | a SKI written in either case and in groups of any size reads back |
| `SkiText.ReadsExactlyItsSpellings` | src/ship/ski.rs:91-116 | a text reads as a SKI if and only if its characters other than separators are the SKI's forty digits in either case |
| `SkiText.RefusedFor` | src/ship/ski.rs:91-115 | a text is refused for its first character that is neither a digit nor a separator, and without one for its number of digits, exactly when that is not forty |
| `SkiText.SeparatorsAreIgnored` | src/ship/ski.rs:91-115 | a blank, colon, hyphen or underscore changes nothing, wherever it stands |
| `SkiText.GroupedInPlace` | src/ship/ski.rs:70-84 | grouped by bytes, one blank stands between two groups and nowhere else, and each byte's digits are in place |
| `SkiText.DigitIs` | src/ship/ski.rs:71-73 | the sixteen digits of either case |
| `Keys.OwnKeys.ForCurve` | src/ship/keys.rs:142-153 | a node starts with one current certificate |
| `Keys.OwnKeys.Find` | src/ship/keys.rs:308-312 | the first entry with that state and curve |
| `Keys.OwnKeys.BeginUpdateFor` | src/ship/keys.rs:201-218 | an update begins, counted, unless one is running anywhere, the curve holds no current key or that key is the one given, and is then refused without any change |
| `Keys.OwnKeys.CompleteUpdate` | src/ship/keys.rs:227-253 | on each curve with a successor it becomes current, the current one predecessor and the old predecessor goes; counted if and only if anything moved |
| `Keys.OwnKeys.Successors` | src/ship/keys.rs:227-253 | the curves that have a successor |
| `Keys.OwnKeys.Retire` | src/ship/keys.rs:227-253 | predecessors of exactly those curves are dropped |
| `Keys.OwnKeys.MoveUp` | src/ship/keys.rs:227-253 | the entries of exactly those curves move up one state, in place |
| `Keys.OwnKeys.AddCurve` | src/ship/keys.rs:259-270 | a curve not yet held is added and counted, one held is refused |
| `Keys.OwnKeys.DropCurve` | src/ship/keys.rs:277-285 | every entry of the curve goes, counted if and only if there was one |
| `Keys.OwnKeys.RetainOthers` | src/ship/keys.rs:277-285 | the entries of other curves stay in order |
| `Keys.OwnKeys.ToMessage` | src/ship/keys.rs:291-306 | the message lists every entry as text with its state and the counter |
| `OwnKeyLaws.EveryChangeIsCounted` | src/ship/keys.rs:201-319 | a change that succeeds raises the counter until it saturates, one that is refused changes nothing, and below saturation the counter tells whether anything changed |
| `OwnKeyLaws.RefusalsAreNamed` | src/ship/keys.rs:201-275 | a renewal is refused as in progress, as unknown curve or as no change, and a curve as present, each exactly when it is so |
| `OwnKeyLaws.ChangesRefineCurves` | src/ship/keys.rs:201-285 | the list of entries behaves on every curve as three independent optional keys would |
| `OwnKeyLaws.CompletedIsIdle` | src/ship/keys.rs:227-253 | after a completion no update is running on any curve |
| `OwnKeyLaws.ChangeKeepsSound` | src/ship/keys.rs:201-285 | every change keeps one current per held curve, at most one predecessor per curve and at most one successor overall |
| `OwnKeyLaws.EveryRunIsSound` | src/ship/keys.rs:142-319 | so every reachable state of every run keeps it |
| `OwnKeyLaws.SoundMeansOneCurrent` | src/ship/keys.rs:161-188 | and a held curve then has exactly one certificate in use |
| `Keys.PeerKeys.Apply` | src/ship/keys.rs:390-442 | an older message is ignored; any other replaces the curve's keys and raises the counter, reporting the difference |
| `Keys.PeerKeys.Unknown` | src/ship/keys.rs:418-424 | the keys announced and not held yet |
| `Keys.PeerKeys.Missing` | src/ship/keys.rs:425-431 | the keys held on the curve and no longer announced |
| `Keys.PeerKeys.RetainOthers` | src/ship/keys.rs:432-434 | the keys of other curves stay in order |
| `Keys.PeerKeys.Collect` | src/ship/keys.rs:403-417 | the announced current and successor keys of the curve, as far as their text reads |
| `PeerKeyLaws.AnnouncementIsUnderstood` | src/ship/keys.rs:291-306 | the keys a peer reads out of a node's message are exactly the node's current and successor keys on the curve, through the text of each SKI |
| `PeerKeyLaws.AppliedLeavesOtherCurves` | src/ship/keys.rs:390-442 | keys trusted on other curves are never touched |
| `PeerKeyLaws.AppliedTrustsWhatIsAsked` | src/ship/keys.rs:390-442 | a message taken up, however malformed, leaves the keys of other curves in place and trusts on its curve exactly the keys that some whole entry of it, current or coming, spells |
| `PeerKeyLaws.NewestDecides` | src/ship/keys.rs:390-442 | whatever is lost, repeated or reordered, the peer ends in the state of the last message among those with the greatest counter |
| `PeerKeyLaws.OldMessagesAreIgnored` | src/ship/keys.rs:390-400 | messages older than what the peer holds change nothing at all |
| `PeerKeyLaws.SomeMessageDecides` | src/ship/keys.rs:390-442 | some delivered message decides, unless all are older |
| `PeerKeyLaws.ReportsAreTheDifference` | src/ship/keys.rs:418-442 | a key is reported as trusted or untrusted if and only if this message made it so |
| `PeerKeyLaws.HistoryIsFollowedExactly` | src/ship/keys.rs:291-442 | every delivery of a node's history, lossy, repeated and in any order, leaves the peer with the keys of the newest state in it if and only if no earlier state with the same counter asks for other keys on the curve |
| `PeerKeyLaws.HistoryIsFollowed` | src/ship/keys.rs:291-442 | so before saturation the peer trusts on the curve exactly the current and successor keys of the newest state it heard of, whatever the delivery |
| `PeerKeyLaws.ReorderingIsHarmlessUntilSaturation` | src/ship/keys.rs:314-319 | where the announcement of a successor overtakes the one before it, the peer keeps the successor if and only if the counter had not saturated |
| `PeerKeyLaws.RenewalKeepsTrust` | src/ship/keys.rs:201-442 | a peer told of a successor trusts the key in use in every later state up to the second completion on the curve, as long as the curve is not dropped |
| `PeerKeyLaws.SecondRenewalIsNotTrusted` | src/ship/keys.rs:201-442 | and no longer: the key of a second renewal it never heard of is not trusted |
| `Policy.OneSideDecides` | src/ship/policy.rs:71-77 | of two different SKIs exactly one side decides |
| `Policy.BiggerDecides` | src/ship/policy.rs:64-77 | a node decides if and only if its SKI has the bigger byte where the two first differ |
| `Policy.Newest` | src/ship/policy.rs:145-151 | the latest opening, the later in the list of those at once; none exactly for no connections |
| `Policy.NewestIsLast` | src/ship/policy.rs:145-151 | a connection is the newest if and only if every other one was opened earlier, or at once and stands before it in the list |
| `Policy.SameOneIsKept` | src/ship/policy.rs:145-151 | two nodes that order the same connections alike name the same one as newest, wherever it stands in their lists |
| `Policy.DelayDoublesUpToTheCap` | src/runtime/reconnect.rs:35-41 | the shift and the saturations compute a delay doubling from a second up to two minutes, at any attempt |
| `Policy.DelayIsSpreadByAQuarter` | src/runtime/reconnect.rs:48-60 | the delay of a peer is within a quarter of that and never zero, so a deferred redial is strictly later |
| `Policy.SpreadByTheSki` | src/runtime/reconnect.rs:48-60 | where in that interval a delay falls is the SKI, as a base-31 number modulo 2^64, modulo the width: every byte of it counts |
| `Hubs.Hub.RoomFor` | src/runtime/hub.rs:937-950 | room for one more, links and handshakes together, one slot reserved for the other direction when there is more than one |
| `Hubs.Hub.SlotFor` | src/runtime/hub.rs:954-968 | a slot for a connection already established |
| `Hubs.Hub.ReleaseInFlight` | src/runtime/hub.rs:971-980 | one handshake fewer of that direction, stopping at zero |
| `Hubs.Hub.Accept` | src/runtime/hub.rs:807-841 | an incoming socket is taken if and only if there is room, and counted in flight |
| `Hubs.Hub.Remember` | src/runtime/hub.rs:1082-1103 | a peer is added or its address replaced, this node itself refused |
| `Hubs.Hub.ForgetPeer` | src/runtime/hub.rs:1195-1197 | the peer is no longer remembered |
| `Hubs.Hub.DeferRedial` | src/runtime/hub.rs:2317-2322 | one attempt more, the next strictly later |
| `Hubs.Hub.SpawnDial` | src/runtime/hub.rs:1009-1061 | a dial starts if and only if there is room; refused, it is reported and the peer deferred |
| `Hubs.Hub.CollectDue` | src/runtime/hub.rs:2326-2340 | the remembered peers due now, not being dialled and not connected |
| `Hubs.Hub.Redial` | src/runtime/hub.rs:2326-2340 | dials them in order, each seeing the room the earlier ones left and reading the clock itself |
| `Hubs.Hub.Adopt` | src/runtime/hub.rs:866-923 | refused as this node itself, for lack of a slot or as a third link to the peer, otherwise appended; a second link is recorded as a double |
| `Hubs.Hub.ReleaseTrust` | src/runtime/hub.rs:1787-1796 | the handshake's waiting slots are given back |
| `Hubs.Hub.HandleEstablished` | src/runtime/hub.rs:1787-1844 | released, adopted or refused, the schedule of the expected peer settled |
| `Hubs.Hub.HandleFailed` | src/runtime/hub.rs:1845-1875 | released, its waiting slot given back, the expected peer deferred, the failure reported |
| `Hubs.Hub.HandleTrustRequested` | src/runtime/hub.rs:1746-1784 | one slot per handshake and per SKI, at most four, the rest refused |
| `Hubs.Hub.ForgetDuplicate` | src/runtime/hub.rs:2312-2314 | the record of a double connection goes |
| `Hubs.Hub.DropLink` | src/runtime/hub.rs:2288-2314 | the link goes, with its peer's duplicate record, and is reported |
| `Hubs.Hub.DropIndices` | src/runtime/hub.rs:2263-2285 | the marked links go from the back, each reported |
| `Hubs.Hub.CloseLinksTo` | src/runtime/hub.rs:1367-1389 | every link to the peer goes, others keep their order |
| `Hubs.Hub.FrameArrived` | src/runtime/hub.rs:1676-1679 | anything heard counts for the keep-alive |
| `Hubs.Hub.Receive` | src/runtime/hub.rs:1963-2034 | a datagram binds the link, settles the opening read it answers and reports discovery once; a contradiction is the reason to close |
| `Hubs.Hub.Bind` | src/runtime/hub.rs:1963-1996 | the first address heard binds the link unless another link or this node holds it |
| `Hubs.Hub.FireTimers` | src/runtime/hub.rs:2263-2285 | links whose ping is overdue are dropped from the back |
| `Hubs.Hub.KeepAlivePass` | src/runtime/hub.rs:2346-2367 | a ping goes out on each link whose interval passed |
| `Hubs.Hub.WakeAt` | src/runtime/hub.rs:680-685 | the earliest wake-up asked for is kept |
| `Hubs.Hub.Deadline` | src/runtime/hub.rs:2235-2260 | the earliest of everything that is scheduled |
| `Hubs.Hub.FindNewest` | src/runtime/hub.rs:2196-2210 | the newest link to the peer |
| `Hubs.Hub.CloseDuplicates` | src/runtime/hub.rs:2196-2232 | every link to the peer but the newest is closed and the record goes; no departure is reported for a peer that stays |
| `Hubs.Hub.RemoveIndices` | src/runtime/hub.rs:2196-2232 | the marked links go in place, the others keep their order |
| `Hubs.Hub.RetainEvents` | src/runtime/hub.rs:2196-2232 | only the reports that the peer departed are withdrawn |
| `Hubs.Hub.ProbeLinks` | src/runtime/hub.rs:2150-2193 | every link to the peer is pinged, one that cannot be is closed |
| `Hubs.Hub.Arbitrate` | src/runtime/hub.rs:2119-2193 | the first duplicate record alone is looked at and its resolution carried out |
| `HubSlots.EveryRunAccountsForSlots` | src/runtime/hub.rs:807-998 | in every run from `accept` and `spawn_dial`, links and handshakes together stay within the limit, each direction below it when it exceeds one, and the in-flight counters are the handshakes running |
| `HubSlots.StepKeepsSlots` | src/runtime/hub.rs:807-998 | each step of the hub keeps that |
| `HubSlots.ReleaseNeverSaturates` | src/runtime/hub.rs:971-980 | a handshake that ends is counted, so the saturating subtraction never saturates |
| `HubSlots.AdmittedFindsASlot` | src/runtime/hub.rs:954-968 | a handshake once admitted is never refused for lack of a slot |
| `HubSlots.RefusedOnlyForThePeer` | src/runtime/hub.rs:866-900 | an established connection is refused if and only if it is this node itself or a third link to that peer |
| `HubSlots.OneSlotIsReserved` | src/runtime/hub.rs:937-950 | a hub that has only dialled can always accept, and one that has only accepted can always dial |
| `HubSchedule.RoomIsExact` | src/runtime/hub.rs:937-948 | there is room for a handshake if and only if the cap and the reservation hold with it as well |
| `HubSchedule.SlotIsExact` | src/runtime/hub.rs:954-968 | there is a slot for a connection if and only if the connections stay within the cap with it, and those of its direction below it |
| `HubSchedule.AcceptedIfItFits` | src/runtime/hub.rs:807-848 | an incoming connection is taken up if and only if it fits, and refused with a reason otherwise, with no other change |
| `HubSchedule.DialedIfItFits` | src/runtime/hub.rs:1009-1060 | a dial is begun if and only if it fits, marking its peer's entry, and is refused and put off otherwise; no other entry changes |
| `HubSchedule.EstablishmentIs` | src/runtime/hub.rs:1787-1844 | a connection is kept unless it leads to this node or is a third to its peer; kept, it is a fresh link, the second to a peer opens a record, and it is reported; refused, it is reported with its reason |
| `HubSchedule.AskingIsReported` | src/runtime/hub.rs:1746-1782 | a peer is asked about when it takes a slot, and refused only when four others have them |
| `HubSchedule.FailureIsReported` | src/runtime/hub.rs:1845-1874 | a failed handshake is reported once, by the peer it waited for trust in if it did |
| `HubPeers.HeededStaysSound` | src/runtime/hub.rs:1963-2034 | binding a link leaves addresses naming one link each, and none this node's |
| `HubPeers.ClosedDuplicates` | src/runtime/hub.rs:2196-2232 | closing duplicates leaves one link to the peer if there was any, no record, and every other peer as it was |
| `HubTables.StepIsSound` | src/runtime/hub.rs:866-2314 | every step keeps at most two links to a peer, a record of every double, no link to this node, and distinct device addresses and connections |
| `HubTables.EveryRunIsSound` | src/runtime/hub.rs:866-2314 | so every reachable table is sound |
| `HubClaims.RouteFindsTheOnlyLink` | src/runtime/hub.rs:1930-1946 | in every reachable table a datagram is routed to a link if and only if it is the one bound to the address, or the one that asked when none is named |
| `HubClaims.NothingIsRoutedHere` | src/runtime/hub.rs:1930-1946 | nothing addressed to this node is routed to a link |
| `HubClaims.StepInherits` | src/runtime/hub.rs:1963-2034 | in each step every link is new or continues an earlier one with its binding, announcement and peer |
| `HubClaims.BindingHolds` | src/runtime/hub.rs:1963-2034 | over any run the link of a connection keeps peer, origin, binding and announcement from any state to any later one it is still held in |
| `HubDiscovery.DiscoveriesAreReports` | src/runtime/hub.rs:1963-2034 | in every step of any kind the queued `PeerDiscovered` events stay as they are, but for the application taking from the front and a datagram that completes a discovery putting one behind |
| `HubDiscovery.ReportedWhenDiscovered` | src/runtime/hub.rs:1996-2034 | a discovery is queued only by a datagram, for a link not yet announced that is bound and has no opening read outstanding, and names its peer and address |
| `HubDiscovery.DiscoveredAtMostOnce` | src/runtime/hub.rs:1996-2034 | over any run no two steps queue a discovery of the same connection |
| `HubReads.DatagramIs` | src/runtime/hub.rs:1963-2034 | a datagram whose address does not fit costs its connection alone; any other leaves all links in place and its own with the first address heard and exactly the reads it did not refer to |
| `HubReads.DiscoversExactly` | src/runtime/hub.rs:1996-2034 | a discovery is queued if and only if the datagram's address fits, the link was not announced, is bound by now, and every read outstanding is the one referred to |
| `HubReads.OutstandingAreUnanswered` | src/runtime/hub.rs:1996-2034 | at any time of any run a link's outstanding reads are those of its two opening reads no datagram on its connection has referred to; it is bound if one named a device and announced if one was the discovery |
| `HubReads.DiscoveredOnceAllAnswered` | src/runtime/hub.rs:1996-2034 | over any run a datagram reports its peer if and only if its address fits, no earlier one did, some datagram on the connection has named a device, and each of the two opening reads has been answered on it |
| `HubArbitration.KeptIsNewest` | src/runtime/hub.rs:2196-2210 | the link the table keeps is the one `newest` names among the peer's links |
| `HubArbitration.ArbitrationSettles` | src/runtime/hub.rs:2119-2232 | when a decision falls, the peer is left with its newest link, of those that answered after a probe; all others stay in order and the record goes |
| `HubEffects.ArbitrationIs` | src/runtime/hub.rs:2119-2193 | with fewer than two links only the record goes; the bigger SKI keeps the newest at once; the other waits three seconds from the record's start, then probes, then keeps the newest that answered |
| `HubEffects.AnsweredArePicked` | src/runtime/hub.rs:2176-2186 | those that answered are, in order, the links to the peer that await no pong |
| `HubEffects.ProbeIs` | src/runtime/hub.rs:2146-2174 | the probe pings every link to the peer and no other, counts an answered keep-alive first, drops those it does not go out on, and asks to be woken ten seconds later at the latest |
| `HubEffects.DuplicatesCloseSilently` | src/runtime/hub.rs:2196-2232 | of the events queued, exactly the departures of that peer are withdrawn |
| `HubEffects.DroppedRecords` | src/runtime/hub.rs:2288-2315 | the record of a peer goes with the last link to it, and only then, however many links are dropped |
| `HubEffects.CloseLinksIs` | src/runtime/hub.rs:1371-1389 | closing a peer's connections closes all of those and no other, and reports each |
| `HubEffects.WakeAtIs` | src/runtime/hub.rs:680-686 | of two times to be woken the earlier is kept, and nothing else changes |
| `HubArbitration.ProbeIsRecorded` | src/runtime/hub.rs:2150-2193 | a probe marks its record and no other, or the last link to the peer is gone and the record with it |
| `HubArbitration.ArbitrationEnds` | src/runtime/hub.rs:2119-2232 | past the grace period at most two looks at the record leave at most one link to the peer, whatever the pings did and however late the second look |
| `HubArbitration.StepMovesOn` | src/runtime/hub.rs:2119-2193 | in every step a record that stays keeps its start, and its probe if it had one |
| `HubArbitration.ProbedAtMostOnce` | src/runtime/hub.rs:2119-2193 | over any run a double connection is probed at most once while its record stays |
| `HubArbitration.NewestAnswered` | src/runtime/hub.rs:2196-2210 | a link that answered and is the newest of all is the newest of those that answered |
| `HubArbitration.BothKeepTheSame` | src/runtime/hub.rs:2119-2232 | two hubs that hold their connections to each other in the same order, the newest answering, are left with the same one: the deciding hub at its first look, the other after its probe |
| `HubTimers.EveryRunKeepsPings` | src/runtime/hub.rs:460-472 | in every run, while a keep-alive ping is on record the link awaits its pong exactly until one comes in |
| `HubTimers.UnresponsiveMeansUnanswered` | src/runtime/hub.rs:2263-2285 | in every run a timer pass closes a link as unresponsive if and only if a recorded ping went unanswered for the whole timeout |
| `HubTimers.PassDischargesLinks` | src/runtime/hub.rs:2263-2367 | after the timers and the keep-alive every surviving link's next deadline is strictly ahead |
| `HubEffects.TimersPassIs` | src/runtime/hub.rs:2263-2285 | the timer pass drops exactly the links whose ping has awaited a pong for ten seconds, counts the pongs of the others, reports each departure, and a wake-up once if it is due |
| `HubEffects.KeepAlivePassIs` | src/runtime/hub.rs:2346-2368 | the keep-alive pass pings exactly the connections quiet for fifty seconds with no ping on its way, and drops those it does not go out on |
| `HubPending.EveryRunKeepsKnown` | src/runtime/hub.rs:1009-1061 | in every run a remembered peer marked as being dialled really has a dial running, and is remembered once |
| `HubPending.RedialDischarges` | src/runtime/hub.rs:2326-2340 | after a redial every remembered peer neither connected nor being dialled has a strictly later attempt |
| `HubSchedule.EstablishmentSchedules` | src/runtime/hub.rs:1797-1847 | a dial that reached the peer it was for clears its failed attempts; one that reached another, or one connection too many, counts as failed; one that reached this node leaves the schedule as it was |
| `HubSchedule.FailurePutsOff` | src/runtime/hub.rs:1845-1874 | a failed dial counts one more attempt and puts the next off by the delay for that number, for its peer alone |
| `HubSchedule.DueAgainAfterReachingSelf` | src/runtime/hub.rs:1829-1840 | a peer whose dial has just ended is due again at once if and only if the dial reached this node itself, was due, and no link to the peer is held |
| `HubSchedule.DueAreDialed` | src/runtime/hub.rs:2326-2341 | a redial dials, in order, exactly the peers that are not dialled, not connected and whose time has come |
| `HubSchedule.RememberedIs` | src/runtime/hub.rs:1082-1102 | a remembered peer is due at once under its address, in its own entry or a new one; no other entry changes |
| `HubSchedule.DeadlineIsTheEarliest` | src/runtime/hub.rs:2235-2259 | the hub's next deadline is the least of all times a link, a peer or the application has something due, and none exactly if nothing is |
| `HubPending.NothingIsLeftDue` | src/runtime/hub.rs:2235-2367 | after the timers, the keep-alive and the redial the hub's own next deadline is ahead, so the loop does not spin |
| `HubPending.EveryRunBoundsTrust` | src/runtime/hub.rs:1746-1784 | in every run at most four trust slots are on record, for different peers and origins, each while a handshake of that origin runs |
| `HubWaiting.EveryRunUsesSlots` | src/runtime/hub.rs:1746-1875 | in every run each slot on record is one a running handshake waits under, for that peer |
| `HubWaiting.StrandsExactly` | src/runtime/hub.rs:1746-1875 | a step leaves everybody who waits with a slot if and only if it strands nobody: no handshake ends whose origin holds the slot another one of the same peer relies on, and none asks under an origin that holds another peer's |
| `HubWaiting.OnRecordUnlessStranded` | src/runtime/hub.rs:1746-1875 | throughout a run everybody who waits holds a slot if and only if no step of the run strands anybody |
| `HubWaiting.AtMostFourWait` | src/runtime/hub.rs:1746-1875 | in such a run the peers that wait are exactly those with a slot, and at most four |
| `HubWaiting.FiveCanWait` | src/runtime/hub.rs:1775-1780 | a run in which five peers wait: one asks over two handshakes, the recorded one fails and a fifth peer takes its slot |
| `Trust.TrustStore.RememberPeer` | src/runtime/node.rs:304-309 | the peer is trusted under its SKI |
| `Trust.TrustStore.TrustPairedUnit` | src/runtime/node.rs:316-340 | the unit is replaced, the old one's SKI untrusted and the new one's trusted if known |
| `Trust.TrustStore.ForgetPairedUnit` | src/runtime/node.rs:351-364 | the unit and its SKI go |
| `Trust.TrustStore.ObserveSki` | src/runtime/node.rs:387-418 | the unit's SKI is recorded and trusted, an earlier one untrusted, and the counter moves exactly when anything changed |
| `Trust.TrustStore.ForgetPeer` | src/runtime/node.rs:425-441 | the peer goes, and the unit with it if it was the unit |
| `Trust.TrustStore.ForgetEverybody` | src/runtime/node.rs:446-462 | everything goes, and how much is told |
| `Trust.TrustStore.TrustFor` | src/runtime/node.rs:1047-1058 | a peer is let in by its SKI, or by the unit's certificate, whose SKI is then recorded |
| `Trust.EveryStoreIsSound` | src/runtime/node.rs:271-458 | in every reachable store the unit's SKI, once known, is a trusted peer |
| `Trust.DisplacedUnitWaits` | src/runtime/node.rs:316-340 | a unit displaced by another is not let in, by SKI or by certificate, through any later history that does not ask for it again |
| `Trust.DisplacedLosesEverything` | src/runtime/node.rs:316-340 | the one step of it: certificate and SKI go together, unless the new unit is known to present that SKI; nobody else is affected |
| `Trust.ForgottenUnitWaits` | src/runtime/node.rs:351-458 | a unit forgotten by its SKI, as the unit or with everybody is not let in through any later history that does not ask for it again |
| `Trust.ForgottenUnitStaysOut` | src/runtime/node.rs:425-441 | the one step of it: forgetting the SKI a unit was reached under revokes its certificate too |
| `Trust.NobodyIsTrustedUnasked` | src/runtime/node.rs:1047-1058 | over every history a peer is let in only on an act not undone since: its SKI approved or presented by the paired unit, or its certificate the one last paired |
| `Trust.DecisionIsRemembered` | src/runtime/node.rs:1047-1058 | one decision: a peer let in is let in again by its SKI with no further change, and one kept waiting leaves no trace |
| `Trust.OthersKeepTheirRecord` | src/runtime/node.rs:304-458 | every change leaves every record as it was but those it grants and those it revokes, and a record granted is the one approved or the unit's |
| `Trust.UnitKeepsItsPairing` | src/runtime/node.rs:316-458 | the unit stays what it is until it is replaced or forgotten, but for the SKI it presents |
| `Trust.LetInExactly` | src/runtime/node.rs:1047-1058 | over every history a peer is known if and only if a grant to its SKI stands unrevoked, and kept waiting if and only if neither that nor a pairing with its certificate stands |
| `Trust.KnownUntilRevoked` | src/runtime/node.rs:304-458 | a peer remembered stays known, by the same record, through any changes that neither grant it anew nor revoke it |
| `Pairing.PairingHub.EvaluatePairing` | src/runtime/hub.rs:1287-1340 | a request taken up replaces the unit, restarts the clock and closes the links of the unit it displaces; any other changes nothing |
| `Pairing.PairingHub.NoteUnitExchange` | src/runtime/hub.rs:1344-1357 | only the paired unit's messages restart the clock |
| `Pairing.PairingsKeepTheirDistance` | src/runtime/hub.rs:539-542 | in every run in which trust is not otherwise removed, no request is taken up within `REPLACEABLE_AFTER` of one taken up or of a message from the unit |
| `Pairing.SilentUnitIsReplaceable` | src/runtime/hub.rs:539-542 | after any run a request from another certificate is taken up if and only if there is no unit or nothing restarted the clock for that long |
| `Pairing.ClosedLinksAreGone` | src/runtime/hub.rs:1367-1389 | closing a peer's links leaves none to it and all others in order |
| `Pairing.DisplacedUnitIsGone` | src/runtime/hub.rs:1287-1340 | a displaced unit loses certificate, SKI and connections in the same step; all other links and all other peers' records stay, and so does the whole table when its SKI was not known |
| `Pairing.PairingAgainClosesNothing` | src/runtime/hub.rs:1287-1340 | the other case of one step: a unit that pairs again displaces nobody and keeps its connections |
| `Pairing.TakenUpIsLetIn` | src/runtime/hub.rs:1287-1340 | the unit of a request taken up is let in under whatever SKI it presents, and that is the only trust added; a request not taken up changes nothing |
| `Values.Pow10IsThePower` | src/model/values.rs:219-227 | the power assembled from a table and recursion is ten to that exponent, or overflows from the exponent on at which it does |
| `Values.ScaledToReal` | src/model/values.rs:175-205 | the stepping loop computes exactly the number times ten to the scale, in one step for every twenty-two decades or part of them |
| `Values.FitToI64` | src/model/values.rs:243-259 | the loop divides by one power of ten, at the least scale that fits |
| `Values.FromReal` | src/model/values.rs:92-120 | the number is within 64 bits and within half a unit of its scale of the value; a value that does not fit gets the least scale that does, a whole one is exact, and no smaller number of decimals would have been exact |
| `Values.EnoughMeansNear` | src/model/values.rs:106-115 | a number of decimals is enough only if an integer is within a part in 10^12, and such an integer nearer than half is the one taken |
| `Values.DecimalsAreEnough` | src/model/values.rs:106-115 | a value that has that many decimals, with its digits in range, is written exactly |
| `Values.FitsIsTheRange` | src/model/values.rs:234-238 | a number fits exactly below the last `f64` under 2^63, and is then inside 64 bits |
| `Values.TryDecimals` | src/model/values.rs:92-120 | whether a number of decimals is exact, and the number that it gives |
| `Values.FromFraction` | src/model/values.rs:92-120 | when no number of decimals is exact, a number inside 64 bits within half a unit of its scale, at no finer scale than asked for |
| `Values.RoundsToNearest` | src/model/values.rs:270-274 | rounding gives a nearest integer, the one away from zero of two equally near, never outside 64 bits |

## Left out

- In-place descent of `merge`, `clear_from` and `retain_in` into one entry: these are functions of values; the list, the decoders and the tables around them are updated in place.
- Text is a sequence of characters, not UTF-8 bytes; the readers slice only where ASCII has been seen, so the two agree.
- Panics on arithmetic overflow in a debug build: `year - 1` in `days_from_civil` wraps as in a release build.
- The width of the counter of duration components, which only a text of more than four thousand million components could exceed.
- Leaves that parse their own text when decoded (times, SKIs as elements), floating-point and free-form JSON leaves, and extensible enumerations: carried as plain text by the codec.
- JSON text and the byte framing around it, serde, error messages.
- The tables that pair a function with its filters (`restrict` and `delete_restricted` of mismatched functions), and functions that are not lists.
- IEEE 754 rounding, overflow and underflow: `Values` is exact arithmetic; a value is assumed finite.
- Sockets, TLS, WebSocket, mDNS, certificates and tasks: what they deliver is a step of the run with arbitrary parameters, whether a ping went out included.
- The SPINE engine, use cases and the SHIP handshake: message counters are fresh numbers, datagrams are what the hub reads of them; their timers are not in `next_deadline`.
- Connections the application adopts itself, `set_max_connections` during a run, the single report of `disconnect`, sightings of instances and the events `Found` and `Lost`.
- PIN and trust levels, the names and times kept with a peer, persistence of the store as JSON, the lock around it; a trust store is used by one caller at a time.
- The pairing receiver: a request seen here has been authenticated, is addressed to this node and is no replay.
- Addresses, fingerprints, connections and counters are numbered; instants are whole milliseconds since the hub started.
- The generated SPINE model (one type declaration for each element of the schemas), the mDNS TXT record, the QR code text, the conformance catalogue and harness, and the examples.
