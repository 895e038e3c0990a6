# Sirop record layer, modelled in Dafny

Sirop persists Ruby objects in two stores. A blob store (LocalMemCache) maps
string keys to marshalled values. A search index (Ferret) holds one document
per record, keyed by the record's doc key. A class that includes `Sirop`
declares properties with `property name, opts`. Each record gets an id: a
per-domain counter kept under `"_seq_" + domain`, or a UUID. Its doc key is
`domain + "/" + id`.

`save` writes one main document under the doc key. That document holds the
id and every non-lazy property. Each lazy property goes under
`doc_key + "/" + name`. Association properties (`:model`) are folded to ids
first. `save` also builds an index document from the indexed properties. It
sends that document to the index only when it differs from the copy kept
since the last `get` or `save`. `get` does the reverse: it rebuilds a record
from the main document, unfolds association ids through `find`, and rebuilds
that kept copy.

The model has six modules:

- `Values`: Ruby values and truthiness, store entries, errors, and `to_s`.
- `Registry`: the ordered property table.
- `Sequence`: the counter as a pure function.
- `Documents`: the main, index and previous-index documents as functions of
  the saved or stored values, with lemmas that relate them.
- `Sirop`: the `Sirop` module state as class `Store`, and an instance of an
  including class as class `Record`.
- `Scenarios`: small client methods that replay the usage examples.

The two stores are maps held in fields of `Store`. Two ghost counters on
`Store` count the calls of `db_set` (`blobSets`) and of `index <<`
(`indexUpserts`).

How some Ruby features are modelled:

- **Ruby version.** The model follows Ruby 1.8: `Array#to_s` and
  `Hash#to_s` join their parts. In Ruby 1.8 a String also responds to
  `collect`; the model does not follow that (see "## Left out"). Hashes
  in Ruby 1.8 have no defined iteration order; the model fixes the order in
  which entries were added.

- **Marshal** is treated as the identity. A counter entry is written raw
  (`id.to_s`) and is kept apart as `Raw(n)`.
- **`||=` memoisation** keeps Ruby's truthiness. A lazy accessor whose
  instance variable holds nil or false reads the blob store again.
- **Recursion.** `get` calls `unfold_association`, which calls `find`, which
  calls `get` again. On cyclic data Ruby runs out of stack. The model passes a
  `fuel` budget down that chain and returns `StackExhausted` when the budget
  runs out.
- **UUIDs.** A UUID source is an injective function `uuidGen` plus a count
  of draws.

## Model

| member | source | states |
|---|---|---|
| Values.DbSetGet | lib/sirop.rb:69-78 | `db_set` then `db_get` of the same key gives back the value set. Every other key gives what it gave before. |
| Values.Decimal | lib/sirop.rb:127 | `Integer#to_s`: a minus sign for a negative integer, then the decimal digits of its magnitude. Values.DecimalInjective proves that distinct integers get distinct texts. |
| Values.ToS | lib/sirop.rb:127 | `to_s` as interpolation applies it: empty for nil, the text of a string, the decimal text of an integer, and the joined parts of an array or hash, as Ruby 1.8 does. |
| Values.DecimalInjective | lib/sirop.rb:127 | Two integer ids with the same `to_s` text are equal, so distinct counter ids give distinct doc keys. |
| Values.NatDigitsInjective | lib/sirop.rb:127 | Distinct naturals have distinct decimal texts. |
| Values.NatDigitsFirst | lib/sirop.rb:127 | A natural's decimal text never starts with `-`. |
| Registry.Lookup | lib/sirop.rb:217-218 | `properties[name]` finds an entry with that name from the table. It finds none exactly when no entry has that name. |
| Registry.LookupAt | lib/sirop.rb:217 | In a table with unique names, the entry at position i is what a lookup of its name returns. |
| Registry.Declare | lib/sirop.rb:250 | Redeclaring a name replaces its options in place and keeps the length. A new name is appended at the end. |
| Registry.DeclareSpec | lib/sirop.rb:250 | Declaring keeps names unique, makes the declared options what a lookup of the name returns, and changes no other name's lookup. |
| Registry.SameLookupElsewhere | lib/sirop.rb:250 | Two tables that agree on every entry holding a name agree on the lookup of that name. |
| Sequence.SeqKey | lib/sirop.rb:59 | A counter key starts with `_seq_`. |
| Sequence.SeqKeyInjective | lib/sirop.rb:59 | Distinct domains have distinct counter keys. |
| Sequence.Counter | lib/sirop.rb:61 | `db.get(key).to_i`: the raw counter entry's number, and 0 when the key is absent or holds a marshalled value. |
| Sequence.Advance | lib/sirop.rb:59-63 | A draw returns the stored counter plus one (absent counts as 0) and stores it under the counter key only. Every other domain's counter and every other key stay unchanged. |
| Sequence.FirstDrawIsOne | lib/sirop.rb:61 | The first draw in a domain with no counter returns 1. |
| Sequence.Draws | lib/sirop.rb:55-66 | k draws in a row for one domain, each an Advance of the store the previous one left. Sequence.DrawsAreConsecutive states what they return. |
| Sequence.DrawsAreConsecutive | lib/sirop.rb:55-66 | k draws in one domain return the k integers after the stored counter, strictly increasing, and leave other domains' counters alone. |
| Sequence.FreshDomainDrawsOneToK | lib/sirop.rb:55-66 | Starting from no counter, k draws return exactly 1..k. |
| Sequence.NotSeqLikeExtends | lib/sirop.rb:127 | A doc key built from a domain outside the counter key space stays outside it. |
| Sequence.CounterUnmoved | lib/sirop.rb:59-62 | Writing a key outside the counter key space moves no domain's counter. |
| Documents.HashGet | lib/sirop.rb:212-220 | Looking up a hash key finds a value exactly when the key occurs. |
| Documents.Keys | lib/sirop.rb:212-220 | The names that occur in a stored hash's entries. Documents.HashGet finds a value exactly for these. |
| Documents.Replace | lib/sirop.rb:140 | Overwriting an existing key keeps the key set and changes only that key's value. |
| Documents.Put | lib/sirop.rb:140 | `h[k] = v` afterwards finds v under k, adds k to the keys, and leaves every other key's value alone. |
| Documents.ValueAt | lib/sirop.rb:220 | An instance variable never stored reads as nil. |
| Documents.MainDoc | lib/sirop.rb:133-141 | `db_doc`: `id` first, then each non-lazy property's saved value under its name, in table order. Its contents are proved by Documents.MainDocContents and Documents.MainDocEntries. |
| Documents.MainDocEntries | lib/sirop.rb:133-141 | Every entry of the main document is the id or a non-lazy property's name with its saved value. |
| Documents.IdxDoc | lib/sirop.rb:133-142 | `idx_doc`: id, doc key and domain, then each indexed property's saved value, lazy or not. Its contents are proved by Documents.IndexDocContents. |
| Documents.LazyCount | lib/sirop.rb:137-138 | The number of lazy properties, each of which costs save one `db_set`. |
| Documents.MainDocContents | lib/sirop.rb:133-144 | The main document holds the id under `id`, each non-lazy property's saved value under its name, and nothing under a lazy property's name. |
| Documents.MainDocId | lib/sirop.rb:133 | The id stays under `id` whatever the properties. |
| Documents.MainDocAt | lib/sirop.rb:137-141 | The main document's value under one property's name: its saved value, or nothing when the property is lazy. |
| Documents.MainDocLacks | lib/sirop.rb:137-141 | A name carried only by lazy properties is not a key of the main document. |
| Documents.IndexDocContents | lib/sirop.rb:133-142 | The index document holds id, doc key and domain, each indexed property's value, and no non-indexed property. |
| Documents.IndexDocLacks | lib/sirop.rb:142 | A name carried only by non-indexed properties is not in the index document. |
| Documents.IndexDocSameIndexed | lib/sirop.rb:142-145 | Two saves whose indexed values agree build equal index documents. |
| Documents.IndexDocUnchangedIff | lib/sirop.rb:131-145 | Two index documents of one record are equal exactly when every indexed property has the same value in both. This is when the index write is skipped. |
| Documents.EarlierNamesDiffer | lib/sirop.rb:134 | In a table with unique names, no earlier entry shares the name of entry n. |
| Documents.PrevIdx | lib/sirop.rb:210-217 | The index copy `get` rebuilds: doc key and domain, the stored id, and the stored value of each indexed property. Documents.LoadedPrevIdxMatchesSaved relates it to IdxDoc. |
| Documents.PrevIdxStep | lib/sirop.rb:214-217 | Walking the entry a save added for one property extends the rebuilt index copy the way the save extended its index document. |
| Documents.PrevIdxPrefix | lib/sirop.rb:210-217 | Walking the main document of the first k properties rebuilds the index document of those k properties. |
| Documents.LoadedPrevIdxMatchesSaved | lib/sirop.rb:210-224 | When no indexed property is lazy, `get` on a saved main document rebuilds exactly the index document that save sent. |
| Documents.LoadedPrevIdxMissesLazyIndexed | lib/sirop.rb:210-217 | A lazy indexed property is in the saved index document but not in the copy `get` rebuilds, so the two differ. |
| Documents.PrevIdxOnlyStoredNames | lib/sirop.rb:210-217 | The rebuilt index copy holds only fields that the stored document has, plus doc key and domain. |
| Sirop.Ids | lib/sirop.rb:283 | `records.collect { r.id }` keeps length and order. |
| Sirop.FoldedSlot | lib/sirop.rb:280-288 | Folding gives nil for nil or false, a record's id for one record, and an equal-length list of ids in order for a list. |
| Sirop.SavedValue | lib/sirop.rb:135-136 | The value save writes for a property: the folded instance variable for an association, the instance variable otherwise. |
| Sirop.KeyFor | lib/sirop.rb:127 | The doc key `domain/id` of an id, as `doc_key`, `find` and `delete` build it. |
| Sirop.Missing | lib/sirop.rb:198-199 | The number of ids with no stored record is at most the number of ids. |
| Sirop.AllMissing | lib/sirop.rb:198-199 | When every id is missing, each id's doc key is absent. |
| Sirop.NoneMissing | lib/sirop.rb:198-199 | No id is missing exactly when no id's doc key is absent. |
| Sirop.SameBlobsTrans | lib/sirop.rb:132-147 | "Unchanged outside x" followed by "unchanged outside y" is "unchanged outside x and y". |
| Sirop.RefsInAll | lib/sirop.rb:135 | The records of one instance variable are among all records the record refers to. |
| Sirop.LazyKeysPrefix | lib/sirop.rb:138 | The lazy blob keys of a table prefix are lazy blob keys of the whole table. |
| Sirop.LazyKeyIn | lib/sirop.rb:138 | Each lazy property's key `doc_key/name` is one of the lazy blob keys. |
| Sirop.LazyKeysApart | lib/sirop.rb:138-144 | Lazy blob keys of different names differ from one another, from the doc key, and from every counter key. |
| Sirop.WrittenStep | lib/sirop.rb:137-141 | One more property extends "what the save loop has written": a blob for a lazy property, nothing for the others. |
| Sirop.WrittenWithin | lib/sirop.rb:134-143 | Before the main document is written, the loop has changed only lazy blob keys. |
| Sirop.SlotsKeptStep | lib/sirop.rb:135 | A pass that changes only a lazy property's instance variable keeps every non-lazy and later instance variable. |
| Sirop.CommitWritten | lib/sirop.rb:144 | Writing the main document after the loop gives the full committed state: main document, lazy blobs, and nothing else changed. |
| Sirop.Committed | lib/sirop.rb:137-144 | What a successful save leaves in the blob store: the main document under the doc key, each lazy value under its blob key, and every other non-counter key as it was. |
| Sirop.Reindexed | lib/sirop.rb:145-146 | `index << idx_doc unless idx_doc == @_prev_idx_doc`: the index gets the document, as one upsert, exactly when it differs from the kept copy. |
| Sirop.CommittedSince | lib/sirop.rb:144 | A commit stays one over an earlier store that differs only in counters. |
| Sirop.Blobs | lib/sirop.rb:300-316 | The blob store without its counter keys reads like the blob store at every other key, such as a lazy blob `doc_key/name`. |
| Sirop.LazySlotsStep | lib/sirop.rb:135 | One more pass adds its property's lazy read to those of the earlier passes, whose instance variables it leaves alone. |
| Sirop.SavedThenLoaded | lib/sirop.rb:208-228 | Save then get round trip. A record loaded from the document a save committed carries the saved id and each plain non-lazy saved value, and has no instance variable for a lazy property. When no indexed property is lazy, its kept index copy is exactly what save sent. Sirop.CommittedLoadable and Store.Get show that get does return such a record. |
| Sirop.DocLoadable | lib/sirop.rb:209-225 | When `get` of a key succeeds with a record: a hash is stored there and every entry of it loads. |
| Sirop.EntryLoadable | lib/sirop.rb:212-221 | When one stored entry loads: it is `id`, or it names a declared property whose value loads. |
| Sirop.FieldLoadable | lib/sirop.rb:217-218 | When a stored field loads: its property is declared, and its ids unfold when it is an association. |
| Sirop.IdsLoadable | lib/sirop.rb:292-296 | When `unfold_association` succeeds: nil or false, or a registered model with a record stored under the doc key of every id (one level of nesting used). |
| Sirop.CommittedLoadable | lib/sirop.rb:132-148 | A document a save committed loads as soon as each saved non-lazy association's ids unfold. With Store.Get, `get` after `save` returns a record. |
| Sirop.UnfoldFolded | lib/sirop.rb:280-296 | Fold then unfold round trip: the ids save writes for an association unfold into the same shape (nil, one record, or a list of the same length) with records carrying the same ids, when each record was saved under its id. |
| Sirop.Record.constructor | lib/sirop.rb:211 | A new or allocated record has no id, doc key, instance variables or kept index copy. |
| Sirop.Record.Materialised | lib/sirop.rb:211-224 | The record `get` builds has the loaded id, instance variables and index copy, and no doc key. |
| Sirop.Record.Id | lib/sirop.rb:120-122 | The id is truthy. A truthy id is kept and nothing is drawn; otherwise exactly one draw is made. |
| Sirop.Record.DocKey | lib/sirop.rb:126-128 | A memoised doc key is returned with nothing changed. Otherwise it is `domain/id` of the memoised id. |
| Sirop.Record.Equals | lib/sirop.rb:154-156 | `==` holds exactly when the two doc keys are equal. Memoised doc keys stay as they were, and so do truthy ids. A missing doc key draws the id it needs as Store.Memo says: the other record's first, then this record's on the store that draw left. In every case the blob store and the UUID draw count are exactly what those one or two memoised draws leave, so when both keys were memoised nothing changes. |
| Sirop.Record.Destroy | lib/sirop.rb:150-152 | The doc key, memoised as DocKey says (drawing an id if there is none), is removed from both stores. The index loses exactly that key. The blob store is the one after the draw less that key. |
| Sirop.Record.Save | lib/sirop.rb:132-148 | On success: the main document under the doc key holds the folded values, each lazy value is under its blob key, no other non-counter blob changes, and no counter goes back, nor does the UUID draw count. Each lazy property's value is the one its reader had before the save. A truthy instance variable stays as it was. Otherwise the variable becomes what `doc_key/name` held before the save, or nil for an association whose blob is nil or false. The save succeeds whenever each lazy property has a truthy variable or a blob that reads without ids to unfold, and an error needs a lazy property with a falsy variable whose blob fails to read or holds ids. The kept index copy becomes the new index document. The index gets it, as one upsert, exactly when it differs from the old copy. There is one `db_set` per lazy property plus one; an error leaves at most one per lazy property. Non-lazy instance variables are unchanged. The id and doc key are the memoised ones. Ids follow Store.Drew for this record and every record its instance variables refer to: an id that was set stays; a record that had none either holds the same value or an id drawn during the call (a counter value above the domain's counter before the call and at most its counter after, or a UUID generated during the call), and two such records whose ids come from one source hold different ids. |
| Sirop.Record.IdAndKey | lib/sirop.rb:133 | The `id` then `doc_key` reads at the head of save: memoised id, doc key `domain/id` unless already memoised, and only counters change. Ids follow Store.Drew for the records given: an id that was set stays; a record that had none either holds the same value or an id drawn during the call (a counter value above the domain's counter before the call and at most its counter after, or a UUID generated during the call), and two such records whose ids come from one source hold different ids. |
| Sirop.Record.SaveUnder | lib/sirop.rb:133-147 | Save with id and doc key already fixed, stated against the blob store, ids and draw count from before the id was drawn: the committed state, lazy values, success condition, index write rule, write counts and draw count as for Save. Truthy ids of the records referred to stay, and Store.Drew holds from before the id was drawn for this record and those records, as for Save. |
| Sirop.Record.SaveBody | lib/sirop.rb:134-147 | The loop and then the commit, stated against the blob store after the id was drawn: the same committed state, lazy values, success condition, index write rule, write counts, draw count and kept ids. Ids follow Store.Drew for the records given, which include every record the instance variables refer to: an id that was set stays; a record that had none either holds the same value or an id drawn during the call (a counter value above the domain's counter before the call and at most its counter after, or a UUID generated during the call), and two such records whose ids come from one source hold different ids. |
| Sirop.Record.Commit | lib/sirop.rb:144-146 | The main document is written, and it is the only blob that changes. The index document is sent unless equal to the kept copy, and the kept copy is replaced. |
| Sirop.Record.SaveFields | lib/sirop.rb:133-143 | The property loop builds exactly the main and index documents of the saved values, writes exactly the lazy blobs, and keeps associated records' truthy ids. Each lazy property's variable is kept when truthy and otherwise read from its blob as it was before the loop. An error means some lazy property has a falsy variable and a blob that fails to read or holds ids, and then at most one blob was written per lazy property. The UUID draw count never goes back. Ids follow Store.Drew for the records given, which include every record the instance variables refer to: an id that was set stays; a record that had none either holds the same value or an id drawn during the call (a counter value above the domain's counter before the call and at most its counter after, or a UUID generated during the call), and two such records whose ids come from one source hold different ids. |
| Sirop.Record.SaveStep | lib/sirop.rb:135-142 | One loop pass extends the saved values, the written blobs, the kept instance variables and the lazy reads by one property. A lazy read is made against the blob as it was before the loop, which no earlier pass wrote. Truthy ids stay. An error means property j is lazy, its variable is falsy, and its blob fails to read or holds ids, and then no blob was written. The UUID draw count never goes back. Ids follow Store.Drew for the records given, which include every record the instance variables refer to: an id that was set stays; a record that had none either holds the same value or an id drawn during the call (a counter value above the domain's counter before the call and at most its counter after, or a UUID generated during the call), and two such records whose ids come from one source hold different ids. |
| Sirop.Record.SaveKept | lib/sirop.rb:135-141 | One property's saved value: a lazy blob writes under `doc_key/name`, only that property's instance variable may change (and only when lazy), and truthy ids stay. A lazy property succeeds exactly when its reader can load (Sirop.LazyLoads). Its variable is then kept when truthy and otherwise read from the blob as it was before the pass. An error writes no blob. The UUID draw count never goes back. Ids follow Store.Drew for the records given, which include every record the instance variables refer to: an id that was set stays; a record that had none either holds the same value or an id drawn during the call (a counter value above the domain's counter before the call and at most its counter after, or a UUID generated during the call), and two such records whose ids come from one source hold different ids. |
| Sirop.Record.SaveField | lib/sirop.rb:135-141 | The value written is the folded instance variable. For a lazy property, that variable is the lazy reader's result: kept when truthy, otherwise read from the blob as it was before. A lazy property succeeds exactly when its reader can load. Only a lazy property's variable may change. Truthy ids of associated records are kept. The UUID draw count never goes back. Ids follow Store.Drew for the records given, which include every record the instance variables refer to: an id that was set stays; a record that had none either holds the same value or an id drawn during the call (a counter value above the domain's counter before the call and at most its counter after, or a UUID generated during the call), and two such records whose ids come from one source hold different ids. |
| Sirop.Record.FieldSlot | lib/sirop.rb:135 | A non-lazy property's instance variable is read as is. A lazy one goes through the lazy reader. A truthy variable is returned unchanged. Otherwise the result is the blob's value, nil for a falsy association blob, or the records its ids unfold to. It succeeds exactly when the reader can load. |
| Sirop.Record.Set | lib/sirop.rb:262 | A writer sets one instance variable and no other. |
| Sirop.Record.Lazy | lib/sirop.rb:300-316 | A truthy instance variable is returned with nothing read. Otherwise the blob `doc_key/name` is read, unfolded for an association, and memoised. Read errors pass through. An association succeeds exactly when its ids unfold (Sirop.IdsLoadable). |
| Sirop.Store.constructor | lib/sirop.rb:31-44 | setup! records both stores and adds the `_doc_key` and `id` index fields. No class is registered. |
| Sirop.Store.Memo | lib/sirop.rb:121 | `@id ||= next_sequence`: the result is truthy and changes no blob outside the counters. A truthy id makes no draw. |
| Sirop.Store.Draw | lib/sirop.rb:55-66 | One draw of the id source: the next UUID in UUID mode, otherwise the domain's counter advanced by one. |
| Sirop.Store.DrawnTruthy | lib/sirop.rb:55-66 | A drawn id is truthy. |
| Sirop.Store.DrawnWiden | lib/sirop.rb:55-66 | An id drawn within a span of the id source was drawn within any span around it. |
| Sirop.Store.DrawnApart | lib/sirop.rb:55-66 | Two ids drawn from one source in consecutive spans differ: UUIDs never repeat and a counter only goes up. |
| Sirop.Store.DrewTrans | lib/sirop.rb:55-66 | Store.Drew over two consecutive spans gives Store.Drew over the whole span, distinctness across the two spans included. |
| Sirop.Store.DrewRecount | lib/sirop.rb:69-71 | Store.Drew still holds when a blob outside the counters is written. |
| Sirop.Store.DrewNone | lib/sirop.rb:120-121 | A span in which no id changes satisfies Store.Drew. |
| Sirop.Store.DrewOne | lib/sirop.rb:120-121 | A span in which the only change is one record's memoised id draw satisfies Store.Drew. |
| Sirop.Store.DrewOn | lib/sirop.rb:120-121 | Store.Drew on one set of records carries over to another set whose other records kept their ids. |
| Sirop.Store.Include | lib/sirop.rb:19-24 | A class already registered keeps its configuration. A new one gets its class name as domain and no properties. |
| Sirop.Store.DeclareProperty | lib/sirop.rb:249-264 | The property table gets the options under the name, as Registry.Declare, with no other name's options changed. An indexed name becomes an index field. |
| Sirop.Store.SetDomain | lib/sirop.rb:275-277 | Only the class's domain changes. |
| Sirop.Store.FoldAssociation | lib/sirop.rb:280-288 | The folded value is the ids of the records, in order, after memoising each id, and every record folded has a truthy id. Only counters change. Ids follow Store.Drew for the records folded: an id that was set stays; a record that had none either holds the same value or an id drawn during the call (a counter value above the domain's counter before the call and at most its counter after, or a UUID generated during the call), and two such records whose ids come from one source hold different ids. The UUID draw count never goes back. |
| Sirop.Store.FoldRecords | lib/sirop.rb:283 | `records.collect { r.id }`: the ids of the records in order, as Sirop.Ids, each one truthy afterwards; the result, the ids and the id source are those of Store.CollectIds. Only counters change. Ids follow Store.Drew for the records collected: an id that was set stays; a record that had none either holds the same value or an id drawn during the call (a counter value above the domain's counter before the call and at most its counter after, or a UUID generated during the call), and two such records whose ids come from one source hold different ids. The UUID draw count never goes back. |
| Sirop.Store.SaveValue | lib/sirop.rb:136-141 | The value is the folded one for an association. A lazy property writes it under `doc_key/name` with one `db_set` and changes no other blob. Truthy ids stay. Ids follow Store.Drew for the records given: an id that was set stays; a record that had none either holds the same value or an id drawn during the call (a counter value above the domain's counter before the call and at most its counter after, or a UUID generated during the call), and two such records whose ids come from one source hold different ids. The UUID draw count never goes back. |
| Sirop.Store.SavedFold | lib/sirop.rb:136 | The value save takes for a property before any blob is written: the folded instance variable for an association, the variable itself otherwise. Only counters change and truthy ids stay. Ids follow Store.Drew for the records given: an id that was set stays; a record that had none either holds the same value or an id drawn during the call (a counter value above the domain's counter before the call and at most its counter after, or a UUID generated during the call), and two such records whose ids come from one source hold different ids. |
| Sirop.Store.CollectIds | lib/sirop.rb:283 | `collect` over ids held in a map, each record's id memoised in turn: one id per record, and the same records in the map. |
| Sirop.Store.CollectLoop | lib/sirop.rb:283 | The `collect` loop gives the ids, the records' ids afterwards and the id source afterwards that Store.CollectIds gives. |
| Sirop.Store.IdOf | lib/sirop.rb:283 | One `r.id` of the `collect`: a memoised draw, and only that record's id changes. |
| Sirop.Store.CollectIdsKept | lib/sirop.rb:283 | `collect` keeps every id that was set and changes no record it does not visit. |
| Sirop.Store.CollectIdsTruthy | lib/sirop.rb:283 | After `collect` every record visited has a truthy id. |
| Sirop.Store.CollectIdsValues | lib/sirop.rb:283 | `collect` returns, in order, the id each record holds afterwards, also when a record occurs twice. |
| Sirop.Store.CollectIdsSource | lib/sirop.rb:283 | `collect` changes no blob outside the counters, moves no counter back and never lowers the UUID draw count. |
| Sirop.Store.CollectIdsDrew | lib/sirop.rb:283 | The records `collect` visits satisfy Store.Drew: set ids stay, and those that had none hold ids drawn during the `collect`, pairwise different when they come from one source. |
| Sirop.Store.NextSequence | lib/sirop.rb:55-66 | Counter mode gives the stored counter plus one and stores it. UUID mode gives the next fresh UUID and leaves the blob store alone. |
| Sirop.Store.DbSet | lib/sirop.rb:69-71 | The key holds the value, as one `db_set`. |
| Sirop.Store.Remove | lib/sirop.rb:236-239 | The key is removed from both the index and the blob store, and nothing else changes. |
| Sirop.Store.Delete | lib/sirop.rb:231-233 | Exactly `remove(domain/id)`. |
| Sirop.Store.Get | lib/sirop.rb:208-228 | nil exactly when nothing (or nil/false) is stored. A raw entry, a non-hash value or an undeclared field is an error. It succeeds exactly when the key is absent or its document loads (Sirop.DocLoadable), and then returns a fresh record loaded from the document, with associations unfolded into records loaded from their own doc keys. |
| Sirop.Store.Fetch | lib/sirop.rb:198-202 | `get` as find calls it: nil exactly when nothing is stored. It succeeds exactly when the document loads, and then gives a fresh loaded record. |
| Sirop.Store.LoadDoc | lib/sirop.rb:209-225 | The loop over stored entries succeeds exactly when every entry loads, and then gives a fresh record loaded from the document. An undeclared field is an error. |
| Sirop.Store.LoadEntry | lib/sirop.rb:212-221 | One entry extends the loaded id, index copy and instance variables. It succeeds exactly when the entry loads; an undeclared name is an error. |
| Sirop.Store.FieldStep | lib/sirop.rb:218-220 | Setting one loaded instance variable keeps the others loaded. |
| Sirop.Store.LoadField | lib/sirop.rb:217-218 | A stored field of a plain property becomes its value. An association's field is its unfolding, which succeeds exactly when the ids unfold. An undeclared name is `UnknownProperty`. |
| Sirop.Store.Find | lib/sirop.rb:196-204 | A list succeeds exactly when every id's document loads, and then gives one loaded record per id, in order. It fails when any is missing. When every id is either missing or loads, the error is `RecordsNotFound(n, n - m)` for n ids of which m are missing, which is `RecordsNotFound(n, 0)` when all are. `find([])` is `[]`. A single id succeeds exactly when its document loads, and then gives its loaded record, or `RecordNotFound(id)` when absent. |
| Sirop.Store.FindAll | lib/sirop.rb:198-200 | All or nothing: it succeeds exactly when every id's document loads, with one loaded record per id; it fails when any id is missing. When every id is either missing or loads, the error is `RecordsNotFound(n, n - m)` for n ids of which m are missing. |
| Sirop.Store.FindNext | lib/sirop.rb:198 | One step of the collect/compact: a found record is appended, a missing id adds nothing. It succeeds exactly when the id is missing or its document loads. |
| Sirop.Store.Unfold | lib/sirop.rb:292-296 | No `:model` is `MissingModel`. nil or false ids give nil. Otherwise the result is `find` on the model, of the ids' shape and loaded from their doc keys; it succeeds exactly when the ids unfold (Sirop.IdsLoadable). |
| Scenarios.EmptyStore | lib/sirop.rb:19-44 | setup! then include of a class Doc: empty stores, counter mode, one registered type. |
| Scenarios.CounterDraws | lib/sirop.rb:55-66 | Ids run 1, 2 in one domain and start again at 1 in another. |
| Scenarios.NewRecordsDiffer | lib/sirop.rb:154-156 | Two new records that have never drawn an id are not `==`: the comparison gives the other record id 1 and this one id 2, so the doc keys are `Doc/1` and `Doc/2`. |
| Scenarios.DeleteThenGet | lib/sirop.rb:231-239 | After `delete(1)`, `get("Doc/1")` is nil. |
| Scenarios.GetDestroyGet | lib/sirop.rb:150-152 | `get("Doc/1")` returns the stored record with id 1. After its `destroy`, `get("Doc/1")` is nil. |
| Scenarios.FindStored | lib/sirop.rb:196-204 | `find(1)` returns the stored record with id 1, and `find([])` returns an empty array. |
| Scenarios.SaveAgain | lib/sirop.rb:132-148 | A save of a record with no lazy property and no association, right after a save that kept its index copy, succeeds and writes nothing to the index. |
| Scenarios.SaveTwiceIndexesOnce | lib/sirop.rb:131-148 | Two saves in a row of such a record both succeed and write the index document at most once in total. They write it exactly once when the record had no kept index copy. |
| Scenarios.SaveTitleTwice | lib/sirop.rb:131-148 | A new Doc with an indexed `title`, saved twice: one index write in total. |

## Left out

- The storage backends. LocalMemCache and Ferret are replaced by maps, and
  Marshal by the identity (`db_set`'s value is stored as given).
- `all`, `each`, `search`, `resolve` and `clear!`. These need Ferret queries,
  scores and hit order.
- The parts of `setup!` that create storage, and `init_storage_dir`. These
  are filesystem work.
- Schema options passed to `field_infos`. Only the set of index field names
  is kept.
- The mutex in `next_sequence`. Concurrency is out of scope, so each draw is
  atomic.
- The inside of the UUID library. It is an injective generator.
- Ruby metaprogramming (`attr_accessor`, `class_eval`). It becomes an
  explicit property table and the Record.Set and Record.Lazy methods.
- Ids held in a Hash or a String. Both respond to `collect` in Ruby 1.8, so
  `find` takes its list branch for them (lib/sirop.rb:197-199); the model
  treats them as single ids. For a String the difference shows: Ruby 1.8
  collects over the string's lines but compares the records found with
  `id.size`, the number of characters. So in UUID mode `find(uuid)` with one
  UUID raises RecordNotFound even when the record exists (one record found,
  36 expected), and so does any String id longer than one character,
  whereas Sirop.Store.Find returns the record.
- Sirop.Store.DeclareProperty: it requires that a property is not named
  `id`, `_doc_key` or `_domain`. `attr_accessor :id` would shadow the
  record's own `id` method, and the other two names would overwrite the
  fields save puts in the index document (lib/sirop.rb:133, 142).
- Sirop.Record.Equals: the other operand is a record. Comparing with a
  non-record that has a `doc_key`, and the `false` result for an object
  without one (lib/sirop.rb:155), are not modelled.
- Sirop.Store.Get, Sirop.Store.Fetch, Sirop.Store.LoadDoc and
  Sirop.Store.LoadEntry: they are stated for databases whose documents are
  hashes. A stored value that is truthy but not a hash is an error
  (`NotAHash`), whereas Ruby would try to iterate it.
- Sirop.Record.Save: it requires that plain properties hold plain values and
  association properties hold records, lists of records, or nil/false. It
  also requires that the domain and doc key do not start with `_seq_`. A
  record outside these is not modelled.
- Sirop.Record.Save: on an error, which needs a lazy property whose blob
  fails to read or holds ids, the contract states only which blobs may have changed and that
  at most one `db_set` per lazy property was made, not the blobs' values.
- Sirop.Record.Save: the success condition is stated in one direction. A
  lazy association whose blob holds ids that unfold also lets save succeed.
  Sirop.Record.SaveKept states this per property, but Save does not. For
  such a property, Save does not describe the records the ids unfold to.
  Sirop.Record.FieldSlot describes them.
- Sirop.Store.LoadField, Sirop.Store.Unfold, Sirop.Record.Lazy,
  Sirop.Store.Fetch, Sirop.Store.LoadDoc and Sirop.Store.LoadEntry: a
  `:model` option whose value is nil or false is not modelled. The model's
  `model: Option<string>` has one `None` for both that and a missing
  `:model` key. Ruby treats them differently. `save` folds only when
  `opts[:model]` is truthy (lib/sirop.rb:136), so such a property is saved
  raw. `get` and the lazy accessor go by `has_key?(:model)`
  (lib/sirop.rb:218, 260), so they call `unfold_association`, which raises
  ArgumentError (lib/sirop.rb:294). The model loads the value as plain data.
- Sirop.Store.Get: cycles through associations are bounded by `fuel`. When
  the fuel runs out the result is `StackExhausted`, which stands for Ruby's
  stack overflow.

How the code behaves differs from what its documentation suggests in
these places; the model follows the code:

- A lazy accessor memoises with `||=`, so a blob holding nil or false is
  read again on every access (Sirop.Record.Lazy).
- `get` does not load lazy properties, so its kept index copy lacks a lazy
  indexed property. A save right after `get` then writes the index again
  (Documents.LoadedPrevIdxMissesLazyIndexed).
- The memoised doc key survives `domain=`. A record read before a domain
  change keeps its old doc key (Sirop.Record.DocKey).
- `remove` deletes only the main document, so lazy blobs stay in the blob
  store (Sirop.Store.Remove).
- `destroy` on a record that was never saved draws an id to build its doc
  key (Sirop.Record.Destroy).
