# Verified model of zkool's wallet cores

zkool is a multi-account Zcash wallet. This project models, in Dafny 4.11, the parts of it that carry
arithmetic, protocol state, renaming of ids and parsing, and proves what they promise. Cryptography,
SQL and the network are abstract: hash functions and key derivation are uninterpreted functions, a table
is a map with the unique columns of its schema, and a statement is one atomic step on it.

`dafny verify dfyconfig.toml` checks the whole project.

| area | files |
|---|---|
| recovery of a Ledger seed: root key, hardened children, scalar carry loops | `LittleEndian`, `Recover` |
| account backup and restore | `Tables`, `Renaming`, `BackupFormat`, `Restore`, `RestoreSteps`, `Backup`, `AccountRecords`, `Export`, `Exporting`, `SharedTables`, `Importing`, `RoundTrip`, `CopiedColumns`, `RestoredRows` |
| wallets over their whole life: create, delete, restore, sync, rewind | `Lifecycle`, `RecordedRows` |
| restored key-generation state | `Dkg` |
| sums of an account's ZEC | `Sums`, `Ledger` |
| swaps and concurrent status refreshes | `Swaps` |
| transparent addresses and their change counterparts | `ChangeAddresses`, `StoredAddresses`, `StaleAddresses` |
| places in the account list | `Positions` |
| OA1 records | `Trimming`, `OpenAlias` |
| historical prices | `Prices` |
| contacts: vCard note, import, listing | `Contacts`, `ContactBook` |
| shared | `Wrappers`, `RowIds` |

A specification function is not the last word on what a step does: beside it stands a statement of what the
step leaves behind, column by column, in terms of the inputs and the tables alone.

Code that works step by step is a class or an array method here too, proved against a specification
function; the properties are lemmas about that function or about runs of its steps.

## What came out

* Recovery: for every seed whose retry loop ends and every hardened path of length at most 2^26, the derived
  kL is the exact integer kL0 + 8 * (sum of the ZL) in [2^254, 2^255). For any length it is that integer
  modulo 2^256, and a multiple of 8.
* Backup: for a well-formed account, whatever order the rows stand in, export then import adds a copy of it
  under fresh ids: every column, every key and the key-generation state back, the folder one of the same name,
  every link kept, every note's asset and every transaction's category the same one under its id there, a
  category or an asset that was unknown with all its columns, every pool's balance the same at every height.
  It changes no other row but the positions. It fails exactly for one of these reasons: the wallet already
  knows the issuance of an asset that the exporting one has only seen in a transfer (a concrete pair of
  wallets does so), a key or an address of the account cannot be read or its Sapling keys give no address at
  its index, or a key-generation address is stored for an id outside its group. A restore comes back with
  spent notes unlocked and without a memo that belongs to neither a note nor an output.
* Lifecycle: over every run of creations, deletions, restores, recorded chain rows and rewinds from an empty
  wallet, a row refers to rows of its own account that stand no higher in the chain; so the backup of a
  well-formed account of any wallet reached can be restored, with the result above, into any wallet reached.
* Balances: the sums over pools, over transactions and over the joined rows of the account list agree, and the
  cast of a pool's sum to u64 is exact when no spend stands below its note; then the four balances that are shown
  without a height add up to the unspent notes.
* Swaps: with fresh answers, and in any interleaving of refreshes, expiries, deletions and saves, no write skips
  an earlier one in the life of its row; without fresh answers a concrete run overwrites a response its writer
  never read. A write can land on a row that replaced the one read: exactly when the deposit address read was
  saved again in between.
* Change addresses: from any database a successful open repairs the flags and the pairs, and a second one
  changes nothing. Over every run, the stored Sapling address of an account with incoming Sapling keys alone is
  that of its index exactly when it was never moved to a next index.
* Positions: moving an account to position zero is exactly what lets a later restore give two accounts the
  same position.
* OA1: any text with a header parses exactly when each piece between its unquoted semicolons is blank or has an
  equals sign and one names an address, and gives the last address and description named; any other text does not
  parse; a printed record comes back whatever spaces stand around its parts.
* Prices: the one-pass merge fails exactly on an empty list of quotes or a time of u32::MAX; with sorted quotes
  and transactions in any order each gets the last quote not after the latest of the times so far, and so its
  own one exactly when no earlier transaction has passed the next quote.
* Contacts: a contact comes back from its own note exactly when its note lines hold no blank line, label or
  address, none ends with a carriage return, and no white space surrounds them.

## Model

| member | source | states |
|---|---|---|
| `LittleEndian.LeConcat` | rust/src/recover.rs:133-153 | reading a byte string little-endian: the integer of a concatenation is the sum of the parts, the second scaled by 256 to the length of the first |
| `LittleEndian.ToLeOfLe` | rust/src/recover.rs:133-153 | a byte string is determined by its integer and its length, even modulo 256 to that length |
| `Recover.AddScalar` | rust/src/recover.rs:133-140 | the in-place byte loop leaves a + b modulo 2^256, the one dropped carry accounted for, for all 32-byte inputs |
| `Recover.AddScalarMul8` | rust/src/recover.rs:143-153 | the three doublings and the addition leave 8b + a modulo 2^256 for every 28-byte b, with at most the carry of the final addition dropped |
| `Recover.DoublingKeepsCarry` | rust/src/recover.rs:143-153 | while the value is below 2^224 no doubling loses a carry |
| `Recover.LedgerDerivationFromSeed` | rust/src/recover.rs:26-69 | by the two HMACs alone: each candidate is the HMAC of the one before, the first whose bit 253 is clear is taken, its first half clamped, its second half kept, and the chain code is the HMAC of the untouched seed |
| `Recover.ClampLowArithmetic` | rust/src/recover.rs:59-62 | the low mask rounds the first byte down to a multiple of 8 |
| `Recover.ClampHighArithmetic` | rust/src/recover.rs:59-63 | the high masks clear bit 255 and set bit 254 |
| `Recover.RetryArithmetic` | rust/src/recover.rs:50-54 | the bit the retry loop looks at is bit 253 of the scalar |
| `Recover.RootIsClamped` | rust/src/recover.rs:50-63 | an accepted root scalar is a multiple of 8 in [2^254, 2^254 + 2^253) |
| `Recover.Step` | rust/src/recover.rs:76-127 | one pass of the path loop, with its reused buffer, by the HMAC alone: both take the parent's key and chain code; the new halves are kL + 8 ZL and kR + ZR modulo 2^256, and the new chain code is the second half of the other HMAC |
| `Recover.DeriveHardened` | rust/src/recover.rs:72-130 | the loop is the fold of that step over the path, and fails exactly on an index that is not hardened |
| `Recover.DeriveLast` | rust/src/recover.rs:76-127 | every step of every derivation, of either half and of the chain code, is such a step by the HMAC alone |
| `Recover.DeriveConcat` | rust/src/recover.rs:76-127 | deriving along p and then q is deriving along p + q |
| `Recover.WrappedKL` | rust/src/recover.rs:98-108 | for every key and path the derived kL is kL0 + 8 * (sum of the 28-byte ZL), up to multiples of 2^256 |
| `Recover.WrappedKR` | rust/src/recover.rs:98-108 | the same for kR and the sum of the ZR |
| `Recover.DerivedModulo` | rust/src/recover.rs:98-108 | both halves of a derived key are the integer sums modulo 2^256, for every path |
| `Recover.ScalarIsExact` | rust/src/recover.rs:98-108 | from a clamped root and for a path of at most 2^26 steps, kL never wraps, is divisible by 8 and lies in [2^254, 2^255) |
| `Recover.RecoveredScalar` | rust/src/recover.rs:26-130 | the whole recovery from any seed and hardened path gives that exact scalar |
| `Recover.DeriveEd25519PrivateKey` | rust/src/recover.rs:179-185 | the key handed on is, for every path, the integer sum modulo 2^256 and a multiple of 8, and the sum itself up to depth 2^26; a non-hardened index fails |
| `Recover.RecoverZip32Seed` | rust/src/recover.rs:155-163 | along 44'/coin'/0'/0'/0' no step fails and the key handed on is the exact integer sum, a multiple of 8 in [2^254, 2^255) |
| `BackupFormat.CastRoundTrip` | rust/src/io.rs:410 | the i64 to u64 to i64 trip of a stored value loses nothing |
| `Exporting.ExportTAddrs` | rust/src/io.rs:145-165 | every transparent address of the account, once, with its columns |
| `Exporting.ExportSyncHeights` | rust/src/io.rs:167-182 | every sync height of the account, once |
| `Exporting.ExportNotes` | rust/src/io.rs:313-364 | every note of a transaction, once, joined with its memo if it has one |
| `Exporting.ExportOutputs` | rust/src/io.rs:366-399 | every output of a transaction, once, joined with its memo if it has one |
| `Exporting.ExportSpends` | rust/src/io.rs:401-422 | every spend of a transaction, once, with its value cast to u64 |
| `Exporting.ExportTransactions` | rust/src/io.rs:278-424 | every transaction of the account, once, with its notes, outputs and spends |
| `Exporting.ExportBlocks` | rust/src/io.rs:184-237 | one block per height at which the account has a witness, with the header and all witnesses there; fails exactly when such a header is missing |
| `Exporting.ExportUserMemos` | rust/src/io.rs:426-436 | every user memo of the account, once |
| `Exporting.ExportAssets` | rust/src/io.rs:239-261 | every asset of the wallet, once, without the name a user gave it |
| `Exporting.ExportCategories` | rust/src/io.rs:263-276 | every category of the wallet, once |
| `Exporting.ExportShared` | rust/src/io.rs:438-506 | the key-generation state of the account, every peer and every address of it once |
| `Exporting.ExportAccount` | rust/src/io.rs:27-506 | the document of a well-formed account is its complete export: its columns, keys, folder name and key-generation state, its rows, all assets and categories; only a missing account or header makes an export fail |
| `Export.ExportListed` | rust/src/io.rs:278-436 | a complete export lists every row that a backup can hold, each once and after all rows it refers to, whatever the order of the transactions in the file |
| `Restore.WroteOnlyKeeps` | rust/src/io.rs:758-961 | the invariant of a restore: each table is the old one plus the renamed rows done so far; writing one table keeps what the nine others hold while the renaming grows |
| `RestoreSteps.StepWrites` | rust/src/io.rs:758-961 | restoring one listed row succeeds, conflicts with no unique column, and writes the renamed row in its own table only |
| `RestoreSteps.SpendStep` | rust/src/sync/chain_log.rs:555-580 | recording a spend adds the spend of the renamed note in the renamed transaction and releases that note's lock |
| `RestoreSteps.NoteStep` | rust/src/sync/chain_log.rs:487-518 | a note of the account has no nullifier conflict in the new account and is stored with its renamed links |
| `RestoreSteps.OutputStep` | rust/src/sync/chain_log.rs:758-792 | an output gets a new row, because its transaction is a new one |
| `RestoreSteps.MemoStep` | rust/src/sync/chain_log.rs:796-817 | a memo is stored under its renamed transaction with its note or output renamed |
| `RestoreSteps.UserMemoStep` | rust/src/io.rs:919-933 | a user memo is stored on the renamed transaction, at that transaction's height |
| `RestoreSteps.WitnessStep` | rust/src/sync/chain_log.rs:689-712 | a witness is stored on its renamed note |
| `Backup.RunRestores` | rust/src/io.rs:758-961 | restoring any list of rows in such an order succeeds into any wallet and keeps the invariant to its end |
| `Backup.RestoreCopies` | rust/src/io.rs:758-961 | if the list is complete the result is the old wallet plus a whole copy of the account, row by row and link by link |
| `Backup.RestoreKeepsIntegrity` | rust/src/io.rs:758-961 | a wallet whose rows belong to its accounts and refer to rows that are there is still so after a restore |
| `Importing.RunConcat` | rust/src/io.rs:784-917 | restoring one list and then another is restoring both |
| `Importing.Wallet.RestoreAddresses` | rust/src/io.rs:758-776 | the loop over addresses is the run over their rows |
| `Importing.Wallet.RestoreNote` | rust/src/io.rs:811-858 | a note and then its memo, as the run over the two rows |
| `Importing.Wallet.RestoreOutput` | rust/src/io.rs:860-892 | an output and then its memo, as the run over the two rows |
| `Importing.Wallet.RestoreTransactions` | rust/src/io.rs:784-893 | the first pass over the transactions: everything but the spends |
| `Importing.Wallet.RestoreAllSpends` | rust/src/io.rs:895-917 | the second pass: the spends of every transaction, with the names of all notes |
| `Importing.Wallet.RestoreUserMemos` | rust/src/io.rs:919-933 | the loop over user memos is the run over their rows |
| `Importing.Wallet.RestoreBlocks` | rust/src/io.rs:935-961 | headers and witnesses, block by block |
| `Importing.Wallet.RestoreCategories` | rust/src/io.rs:597-610 | the loop over categories computes the upserts by name and the renaming |
| `Importing.Wallet.RestoreAssetRows` | rust/src/io.rs:612-631 | the loop over assets computes the records and the renaming, and stops at the first asset that is not found again |
| `Importing.Wallet.InsertAccount` | rust/src/io.rs:592-756 | every account moves one position down and the new one stands first, with the columns, keys, folder and Sapling address of the restored account; fails exactly when that cannot be made of the document |
| `Importing.Wallet.RestoreSections` | rust/src/io.rs:1000-1052 | the key-generation sections give the specified tables, or fail on an id outside the group |
| `Importing.Wallet.ImportAccount` | rust/src/io.rs:522-1052 | the whole import is the specified restore, and when it fails nothing has changed |
| `RestoredRows.AddressRestored` | rust/src/io.rs:758-776 | one address of any document, into any state of a restore: it is stored under a new id with its columns, or fails exactly when its place is taken |
| `RestoredRows.TransactionRestored` | rust/src/io.rs:784-810 | so is a transaction, with its category renamed or none; it fails exactly when the account has it already |
| `RestoredRows.NoteRestored` | rust/src/io.rs:811-843 | so is a note, with its address and asset renamed or none; it fails exactly when its transaction is not there or the account has its nullifier |
| `RestoredRows.OutputRestored` | rust/src/io.rs:860-873 | an output fails exactly when its transaction is not there, and is the stored one if its place is taken |
| `RestoredRows.MemoRestored` | rust/src/io.rs:845-892 | a memo is stored once, with its note or output renamed |
| `RestoredRows.SpendRestored` | rust/src/io.rs:895-917 | a spend fails exactly when its transaction or its note is not there or the note is another account's; its note is unlocked |
| `RestoredRows.UserMemoRestored` | rust/src/io.rs:919-933 | a user memo of an unknown transaction is skipped, and a second one on a transaction fails |
| `RestoredRows.WitnessRestored` | rust/src/io.rs:947-961 | a witness fails exactly when its note is not there, is another account's, or has one at its height |
| `RestoredRows.StatesAreRun` | rust/src/io.rs:758-961 | rows are restored one by one, all of them, each into what the one before left |
| `RestoredRows.RestoreFailsIff` | rust/src/io.rs:522-1052 | a restore of any document fails exactly when a key or an address cannot be read, an asset is not found again, the Sapling keys give no address, the key-generation sections fail, or one of the rows does |
| `RestoredRows.AssetFoundIff` | rust/src/io.rs:612-631 | an asset is restored exactly when the table takes it and some row has its identity afterwards |
| `SharedTables.CategoriesByName` | rust/src/io.rs:597-610 | each category of the backup is renamed to the wallet's one of its name, the wallet's categories stay as they were, and names stay unique |
| `SharedTables.CategoriesFrom` | rust/src/io.rs:597-610 | every row of the table is an old one or has all columns of one of the backup's categories |
| `SharedTables.RestoreAssetFailsIff` | rust/src/sync/chain_log.rs:378-413 | one asset fails to restore exactly when it is a placeholder and the wallet has the issued asset of its base |
| `SharedTables.OutrunFails` | rust/src/io.rs:612-631 | a wallet with an issued asset and the placeholder of its base, on which the restore of the asset fails |
| `SharedTables.RestoreAssetStores` | rust/src/sync/chain_log.rs:378-398 | otherwise the row found has the backup's identity and base, a placeholder is reconciled in place and keeps its id, and no other row changes |
| `SharedTables.RecordKeepsConsistent` | rust/src/sync/chain_log.rs:378-398 | recording a genuine asset keeps an asset table in which identities and bases determine each other |
| `SharedTables.RecordConflictsIff` | rust/src/sync/chain_log.rs:378-398 | where bases and identities are unique, the statement fails exactly when another base has the identity, unless an issued asset stands on the base |
| `SharedTables.RecordedRow` | rust/src/sync/chain_log.rs:378-398 | a genuine asset has one row of its base afterwards: a new one with its columns, a placeholder that takes its identity, flag and missing name, or the issued one as it was; no other row changes |
| `SharedTables.AssetsRestoredIff` | rust/src/io.rs:612-631 | a whole asset list restores exactly when the wallet outran none of it; then every asset of it has a row with its identity and exactly the columns that it brings |
| `RoundTrip.RowsRestored` | rust/src/io.rs:278-961 | export followed by import of the rows always succeeds for a well-formed account, whatever the wallet restored into |
| `RoundTrip.ExportedKeysDecode` | rust/src/io.rs:522-571 | the checks before the import pass on a backup exactly when the account's own keys and addresses decode |
| `RoundTrip.AccountComesBack` | rust/src/io.rs:633-756 | the account's own row is restored from its backup, or fails to be, exactly by what the exporting wallet holds |
| `AccountRecords.AccountRestored` | rust/src/io.rs:633-756 | a restored account has the columns, keys and key-generation state of the exported one and a folder of its name; it fails only on its Sapling keys or an address outside its group; no old folder changes |
| `AccountRecords.SaplingComesBackIff` | rust/src/io.rs:698-740 | the stored Sapling address, which a backup does not hold, comes back exactly when it was the one at the account's index |
| `RoundTrip.ExportThenImport` | rust/src/io.rs:27-1052 | export followed by the whole import fails exactly when the wallet has outrun an asset of the exporting one, or a key or an address of the account cannot be read, or one is stored for an id outside its group; otherwise it adds an isomorphic copy of the account with the same columns, keys and balances, its assets and categories under their ids there with all columns if they were unknown, and leaves a wallet that can be restored into again |
| `CopiedColumns.TxColumns` | rust/src/io.rs:784-810 | the copy of a transaction has its columns, and its category under its new id |
| `CopiedColumns.NoteColumns` | rust/src/io.rs:811-858 | the copy of a note has its columns and lock, on the copy of its transaction, with its address and asset under their new ids |
| `CopiedColumns.OutputColumns` | rust/src/io.rs:860-892 | the copy of an output has its columns, on the copy of its transaction |
| `CopiedColumns.SpendColumns` | rust/src/io.rs:895-917 | the copy of a spend has its columns, on the copies of its note and its transaction |
| `CopiedColumns.MemoColumns` | rust/src/io.rs:826-892 | the copy of a memo has its texts, on the copy of the note or output it belongs to |
| `CopiedColumns.UserMemoColumns` | rust/src/io.rs:919-933 | the copy of a user memo is the same, on the copy of its transaction |
| `CopiedColumns.HeaderColumns` | rust/src/io.rs:935-946 | the header of a height with a witness comes back as it was |
| `CopiedColumns.WitnessColumns` | rust/src/io.rs:947-961 | the witness of a note stands at its height on the copy of the note |
| `RoundTrip.NothingElseChanges` | rust/src/io.rs:592-595 | every row that was in the wallet stays as it was; positions shift by one |
| `RoundTrip.SpendsResolve` | rust/src/io.rs:895-917 | every spend of the account is found again on the copy of its note, in the copy of its transaction |
| `RoundTrip.SpentNotesUnlocked` | rust/src/sync/chain_log.rs:555-580 | a restored note is locked exactly when it was locked and unspent |
| `RoundTrip.MemoRestoredIff` | rust/src/io.rs:313-399 | a memo of the account comes back if and only if it belongs to a note or an output |
| `RoundTrip.AssetsRestored` | rust/src/io.rs:612-631 | restoring the whole asset table of another wallet: each of its assets has a row of its identity and base, with exactly the columns that the backup brings, known assets keep their ids, and no issued asset changes |
| `RoundTrip.CategoriesRestored` | rust/src/io.rs:597-610 | restoring the whole category table of another wallet: each of its categories, and nothing else, is renamed to the one of its name, which has all its columns if the wallet lacked it; every new row is one of its rows |
| `RoundTrip.BalanceRestored` | rust/src/db.rs:1858-1878 | a copy in which every note's asset has its new name has the balance of the exported account in every pool at every height |
| `Lifecycle.ChangeKeepsSound` | rust/src/sync/chain_log.rs:154-1013 | every statement of the chain log keeps it that rows belong to accounts that are there and refer to rows of their own account no higher in the chain |
| `RecordedRows.TransactionRecorded` | rust/src/sync/chain_log.rs:154-178 | a transaction is stored under a new id with all its columns, unless the account has one with its id, and nothing else changes |
| `RecordedRows.NoteRecorded` | rust/src/sync/chain_log.rs:487-518 | so is a note, unless the account has its nullifier |
| `RecordedRows.SpendRecorded` | rust/src/sync/chain_log.rs:555-580 | the first spend of a note of the account stays, and the note is unlocked; for another account's note nothing changes |
| `RecordedRows.OutputRecorded` | rust/src/sync/chain_log.rs:758-792 | an output is stored under a new id unless its place in its transaction is taken |
| `RecordedRows.WitnessRecorded` | rust/src/sync/chain_log.rs:689-712 | a witness of a note of the account is stored at its height, once |
| `RecordedRows.CheckpointRecorded` | rust/src/sync/chain_log.rs:883-897 | a checkpoint replaces the one of its account and pool |
| `RecordedRows.WitnessesPruned` | rust/src/sync/chain_log.rs:972-985 | exactly the account's witnesses below the height go |
| `RecordedRows.Rewound` | rust/src/sync/chain_log.rs:988-1013 | exactly the account's transactions, notes, spends and outputs above the height go, and the rows that stay are as they were |
| `RecordedRows.RewoundBesides` | rust/src/sync/chain_log.rs:988-1013 | so do its memos, headers and witnesses, and its checkpoints stand at the height |
| `RecordedRows.Deleted` | rust/src/db.rs:1733-1795 | exactly the rows of one account go, in every table |
| `RecordedRows.Created` | rust/src/db.rs:872-905 | a new account has a new id, its columns, and the position one past the last |
| `RecordedRows.Issued` | rust/src/sync/chain_log.rs:378-398 | a genuine asset that is recorded has its row, and no other row changes |
| `RecordedRows.Named` | rust/src/account.rs:2839-2846 | a new category is stored unless its name is taken |
| `Lifecycle.TrimmedIsSound` | rust/src/sync/chain_log.rs:988-1013 | so does a rewind, which removes every row of one account above a height: no row that stays refers to one that goes |
| `Lifecycle.WithoutIsSound` | rust/src/db.rs:1733-1795 | so does the deletion of an account with all its rows |
| `Lifecycle.RestoreKeepsSound` | rust/src/io.rs:758-961 | so does the restore of an account of such a wallet |
| `Lifecycle.SoundAlways` | rust/src/db.rs:872-1795 | it holds, and shared assets and categories are consistent, in every state of every run of creations, deletions, restores and recorded rows from an empty wallet |
| `Lifecycle.AnyWalletTakesAnyAccount` | rust/src/io.rs:27-1052 | the backup of a well-formed account of any wallet reached, imported into any wallet reached, fails for one of the reasons above or adds a faithful copy under a new id |
| `Ledger.Conservation` | rust/src/memo.rs:158-172 | the sums over pools at a height past every row, over transactions, and over the rows of the account list are equal when each spend negates its note |
| `Ledger.PoolSumIsUnspent` | rust/src/db.rs:1866-1875 | when no spend stands below its note, a pool's sum at any height is that of the notes unspent there, hence not negative |
| `Ledger.JoinsMultiplyNoRow` | rust/src/db.rs:1609-1635 | the rows that the five joins of the account list give an account stand one to one for its unspent notes, or there is one row without a note; there is none exactly when it has no sync height |
| `Ledger.ListedIsUnspent` | rust/src/db.rs:1609-1635 | so the listed balance is the sum of the unspent notes |
| `Ledger.CalculateBalance` | rust/src/db.rs:1858-1878 | the four balances are, per pool, the cast to u64 of the sum over all its ZEC notes and spends at or below the height, or over all of them without a height; it fails exactly on a fifth pool or a sum past i64 |
| `Ledger.BalancesAddUp` | rust/src/db.rs:1858-1878 | without a height, and when no spend stands below its note, the four balances add up to the sum of the unspent notes |
| `Ledger.MaxSpendableWithin` | rust/src/db.rs:2625-2642 | the spendable maximum is the sum of the unspent notes that are neither locked nor dust and whose pool is in the mask, and the unspent sum less all others |
| `Dkg.LoopIsMigration` | rust/src/io.rs:1070-1135 | the loop over an old file's packages gives what the SQL migration of a table holding them gives, and fails exactly on an address with an id outside the group or that is not text |
| `Dkg.MigrationIsUnique` | rust/src/db.rs:558-611 | the migration determines all three tables, so the order of the packages is irrelevant |
| `Dkg.RejectedStops` | rust/src/io.rs:1088-1103 | the loop stops on a rejected address and on nothing else, for any list of packages |
| `Dkg.VersionAgrees` | rust/src/io.rs:966-981 | the version inferred for a file without one is what the column's backfill computes on the tables the restore makes |
| `Dkg.SharedRestoredIff` | rust/src/io.rs:964-1052 | key-generation state that is exported and restored comes back whole, unless an address is stored for an id outside the group; then the restore fails |
| `Dkg.FileRestored` | rust/src/io.rs:964-1135 | for any file, with sections, old packages or both: the tables of its sections, the first of several winning, migrated by its packages, its parameters, and the version it tells or else the backfilled one; it fails exactly on an id outside the group or an address that is not text |
| `Dkg.Importer.ImportPackageRows` | rust/src/io.rs:1070-1135 | the loop, statement by statement, computes the specified tables |
| `Dkg.Importer.Import` | rust/src/io.rs:964-1052 | the sections of the current format first, ids outside the group refused, then the old packages, existing rows winning, with the version told or inferred |
| `Swaps.SwapTable.ExpireSwaps` | rust/src/near_intents.rs:52-62 | afterwards no unfunded open swap of the account is a day past its deadline; only such rows change, in their status and their two times, and no row goes; it is the expiry step of the runs |
| `Swaps.SwapTable.ReadSwaps` | rust/src/near_intents.rs:94-151 | expiry, then exactly the account's swaps, newest first, each with the deadline that counts, the closed ones only when asked for |
| `Swaps.SwapTable.SaveSwap` | rust/src/near_intents.rs:505-549 | a confirmed quote that passes the table's checks gets one new row with all its columns and comes back as it will be listed, closed already if it is overdue; everything else fails and changes nothing; it is a save and an expiry of the runs |
| `Swaps.CanInsertIff` | rust/src/db/swaps.sql:4-35 | what the checks of the table let through: an account that is there, positive amounts in digits, a slippage up to 10000, an address that is not blank and not taken |
| `Swaps.SwapTable.SwapStatusSnapshot` | rust/src/near_intents.rs:489-503 | the snapshot of a row of the account matches a later table exactly as long as the row is there with its owner, address, memo and response; another account's row is not found; it is the read step of the runs |
| `Swaps.SwapTable.PersistSwapStatus` | rust/src/near_intents.rs:551-588 | the write goes through exactly when the row still shows the snapshot; then the row has the answer's status and response, unless the status says that a deposit is pending, the time of the check, and a completion exactly with a final status, the earlier one if there is one; an expiry follows; otherwise nothing changes |
| `Swaps.SwapTable.RecordDeposit` | rust/src/api/near_intents.rs:145-185 | a well-formed hash is recorded on an outgoing swap without another one, and no other column but the time of the update changes; it is the deposit step of the runs |
| `Swaps.SwapTable.StampDepositSubmitted` | rust/src/api/near_intents.rs:189-206 | the row with that hash gets a stamp if it has none and keeps the first one; no other column but the time of the update, and no other row, changes; it is the stamp step of the runs |
| `Swaps.SwapTable.DeleteClosedSwap` | rust/src/near_intents.rs:75-92 | exactly that row goes, closed or not, if it is the account's; all others stay as they were; it is the delete step of the runs |
| `Swaps.SwapTable.ClearClosedSwaps` | rust/src/near_intents.rs:64-73 | only closed rows of the account go, none of them is left, and every other row stays as it was; it is the clear step of the runs |
| `Swaps.InvAlways` | rust/src/near_intents.rs:562-579 | over every run a swap belongs to an account, a final status is closed, a closed swap is final or expired, a stamp comes with a hash, and deposit addresses are distinct |
| `Swaps.DepositIsPermanent` | rust/src/api/near_intents.rs:157-167 | while a row lives its quote never changes, nor its hash and its stamp once set |
| `Swaps.ExpiryTouches` | rust/src/near_intents.rs:52-62 | expiry closes exactly the account's unfunded open swaps past their deadline and touches nothing else |
| `Swaps.RefreshComesFrom` | rust/src/api/near_intents.rs:220-243 | every refresh in flight holds what an earlier read of it saw |
| `Swaps.WriteSucceedsIff` | rust/src/near_intents.rs:551-588 | after other writes a write goes through if and only if the last of them left the response that was read |
| `Swaps.WriteHitsTheRowReadIff` | rust/src/near_intents.rs:560-588 | a write lands on the row that was read if and only if its deposit address was not saved again in between |
| `Swaps.WriteHitsAReplacedRow` | rust/src/near_intents.rs:581-587 | a run in which a deleted swap is saved again under its id, address and memo and takes the write meant for the old row |
| `Swaps.ReadsTheLastWrite` | rust/src/near_intents.rs:551-588 | a write that goes through has read the response that the last write before it stored |
| `Swaps.NoWriteIsSkipped` | rust/src/api/near_intents.rs:220-243 | with fresh answers, in any interleaving, no write between a successful writer's read and its write happens in the life of the row written |
| `Swaps.RefreshIsAtomic` | rust/src/api/near_intents.rs:220-243 | so a refresh that writes is atomic over the life of that row |
| `Swaps.EveryWriteIsAtomic` | rust/src/api/near_intents.rs:220-243 | every write in a run has a read, later than every earlier write in the life of its row, that saw what the last of them stored |
| `Swaps.RepeatedAnswerHidesWrites` | rust/src/near_intents.rs:551-588 | a run in which the provider repeats an answer and a writer overwrites two responses it has not read |
| `Swaps.StampNamesTheHash` | rust/src/api/near_intents.rs:189-206 | a stamp appears only by a stamp step that names the hash of the row |
| `ChangeAddresses.QueriesAgree` | rust/src/account.rs:2181-2195 | the query that clears flags at open agrees with the rule an edit enforces, on every software account |
| `ChangeAddresses.OpenRepairs` | rust/src/api/coin.rs:88-91 | from any database a successful open leaves no unusable flag on and every external address paired, and a second open changes nothing |
| `ChangeAddresses.PairedIsFixed` | rust/src/account.rs:2157-2230 | a repaired database is a fixed point of the clearing and of the backfill |
| `ChangeAddresses.NewAccountKeepsGood` | rust/src/account.rs:494-877 | a new account keeps flags fixed, addresses derived and paired, and the current ones stored |
| `StoredAddresses.NewAccountStoresKeys` | rust/src/account.rs:494-877 | a new account has the flag it asked for or must have, its indexes, and in each pool exactly the keys of its source, spending keys included; other accounts are as they were |
| `StoredAddresses.NewAccountStoresAddresses` | rust/src/account.rs:494-877 | its addresses are those of its first index and its own one, change ones included if the flag is on, each as the viewing key with the spending key, the incoming key or the device derives it |
| `StoredAddresses.NewAccountFailsIff` | rust/src/account.rs:494-877 | it is refused exactly for a flag it cannot have, or a Sapling key without an address at its first index, |
| `StoredAddresses.NewDerivableIff` | rust/src/account.rs:494-877 | or an address that does not derive |
| `StoredAddresses.NextIndexStores` | rust/src/account.rs:2009-2078 | a next index is stored with exactly its own addresses, each as its source derives it |
| `StoredAddresses.NextIndexFailsIff` | rust/src/account.rs:2009-2078 | there is none past the last index, nor when neither the Sapling key nor the device has another address |
| `StoredAddresses.SetFlagStores` | rust/src/account.rs:242-262 | an edit stores the flag, and with it on the change counterpart of each external address, as its source derives it |
| `StoredAddresses.OpenStores` | rust/src/api/coin.rs:88-91 | an open turns off exactly the flags of accounts that cannot make change and stores exactly the missing change addresses |
| `StoredAddresses.FixedIff` | rust/src/account.rs:2181-2195 | which accounts may have which setting, by their keys alone |
| `ChangeAddresses.NextIndexKeepsGood` | rust/src/account.rs:2009-2078 | so does moving to the next index |
| `ChangeAddresses.SetFlagKeepsGood` | rust/src/account.rs:242-262 | so does an edit of the flag |
| `ChangeAddresses.OpenKeepsGood` | rust/src/api/coin.rs:88-91 | opening such a database changes nothing |
| `ChangeAddresses.GoodAlways` | rust/src/account.rs:2061-2074 | all of it holds in every state of every run from an empty wallet |
| `ChangeAddresses.ChangeAddressIsFound` | rust/src/account.rs:2106-2130 | in every such state the change address of an account with a key source is stored and is what the source derives |
| `ChangeAddresses.NextIndexMoves` | rust/src/account.rs:2009-2078 | the next index skips only indexes without a Sapling address, which the stored address follows; with incoming Sapling keys alone it does not follow; a device's answer is taken as it is |
| `ChangeAddresses.NoIndexTwice` | rust/src/account.rs:2009-2078 | over every run an account's index never goes back and each next-index step moves it, if devices move on when asked |
| `StaleAddresses.IncomingSaplingIsCurrentIff` | rust/src/account.rs:2009-2045 | over every run, with incoming Sapling keys alone, the stored Sapling address is that of the current index exactly when the account was never moved to a next one |
| `StaleAddresses.IncomingSaplingStaysBehind` | rust/src/account.rs:2009-2045 | a run of a new account and one next-index step after which the stored address is that of the index before |
| `ChangeAddresses.Wallet.EnsureTransparentAddress` | rust/src/transparent_keys.rs:144-176 | stores the derived address of a missing slot, once; fails exactly when it cannot be derived |
| `ChangeAddresses.Wallet.BackfillAccount` | rust/src/account.rs:2198-2230 | adds the change counterpart of each external address and counts them; fails exactly when one cannot be derived |
| `ChangeAddresses.Wallet.Backfill` | rust/src/account.rs:2157-2175 | the same over every account with the flag on |
| `ChangeAddresses.Wallet.OpenDatabase` | rust/src/api/coin.rs:88-91 | clear, then backfill: the repaired state, or an unchanged one if nothing needed repair; succeeds exactly when all missing addresses derive, and a failure leaves the flags cleared and part of the addresses added |
| `ChangeAddresses.Wallet.SetUseInternal` | rust/src/account.rs:242-262 | succeeds exactly when the key does not fix another setting and the missing change addresses derive; then the flag is stored and backfilled, otherwise nothing changes |
| `ChangeAddresses.Wallet.GenerateNextDindex` | rust/src/account.rs:2009-2078 | the next index and its addresses, or nothing; succeeds exactly when there is a next index and its addresses derive, the external one even if it is stored already |
| `ChangeAddresses.Wallet.NewAccount` | rust/src/account.rs:494-877 | the account, its keys and its addresses, or nothing; succeeds exactly when the flag is allowed, the default Sapling address exists and the transparent addresses derive |
| `Positions.AccountTable.Create` | rust/src/db.rs:872-905 | one new account, with a larger id and a position one past the last; no other position changes |
| `Positions.AccountTable.Reorder` | rust/src/db.rs:1797-1845 | whoever stands between the two places moves one towards the place left, and the account takes the target; nothing happens exactly when no account stands at the first place |
| `Positions.RestoredFirst` | rust/src/io.rs:592-653 | a restored account comes first under a new id, and every other one moves one down |
| `Positions.DeletedLeaves` | rust/src/db.rs:1733-1795 | a deleted account leaves its place empty and no other position changes |
| `Positions.ReorderKeepsDistinct` | rust/src/db.rs:1797-1845 | a reorder keeps positions distinct |
| `Positions.ReorderFromOneIff` | rust/src/db.rs:1797-1845 | positions stay at least one if and only if the target is |
| `Positions.ReorderKeepsOrder` | rust/src/db.rs:1797-1845 | the moved account takes the target and all others keep their order |
| `Positions.ReorderUndone` | rust/src/db.rs:1797-1845 | moving back restores every position, even with gaps |
| `Positions.RestoreKeepsDistinctIff` | rust/src/io.rs:592-653 | a restore keeps positions distinct if and only if no account stands at zero |
| `Positions.ZeroTargetBreaksRestore` | rust/src/db.rs:1797-1845 | a reorder to zero and a restore that give two accounts one position |
| `Positions.PositionsAlways` | rust/src/db.rs:881-898 | over every run of create, restore, delete and reorder to targets of at least one, positions are distinct and at least one |
| `OpenAlias.SplitPairs` | rust/src/openalias.rs:50-76 | the scan returns the segments between unquoted semicolons, left-trimmed, without the empty ones |
| `OpenAlias.SegmentsAreTheSplit` | rust/src/openalias.rs:50-76 | for every string those segments are the one way to cut it at exactly the semicolons with an even number of quotes before them |
| `OpenAlias.UnescapeValue` | rust/src/openalias.rs:103-112 | the loop computes the unescaping that keeps escaped spaces at the end |
| `OpenAlias.EscapeRoundTrip` | rust/src/openalias.rs:103-112 | escaping spaces is undone whole, all-space values included |
| `OpenAlias.EscapePadded` | rust/src/openalias.rs:103-112 | white space around an escaped value is dropped, and its own escaped spaces are kept |
| `Trimming.WhiteSpaceIs` | rust/src/openalias.rs:106-111 | what is trimmed: the 25 code points of white space |
| `OpenAlias.PairRoundTrip` | rust/src/openalias.rs:82-96 | a printed pair, quoted or escaped, parses to its key and value |
| `OpenAlias.QuotedEscapes` | rust/src/openalias.rs:82-93 | inside quotes escaped spaces are read as spaces, and all of them are kept |
| `OpenAlias.SplitPrinted` | rust/src/openalias.rs:50-76 | splitting a printed record returns exactly the printed pairs |
| `OpenAlias.ParseOa1` | rust/src/openalias.rs:117-150 | the parser computes the specified record |
| `OpenAlias.RecordRoundTrip` | rust/src/openalias.rs:117-150 | a printed record, whatever white space stands around it and its keys and values, parses to its cryptocurrency, the last address and the last description it names, and parses if and only if it names an address |
| `OpenAlias.ParsesIff` | rust/src/openalias.rs:117-150 | any text with a header parses exactly when each piece between its unquoted semicolons is blank or has an equals sign and one of them names an address; it gives the last address and the last description that a piece names, unquoted or unescaped |
| `OpenAlias.HeaderIff` | rust/src/openalias.rs:117-129 | a header is the prefix, then up to the first space a name that is, trimmed, of lower-case letters |
| `OpenAlias.NoHeader` | rust/src/openalias.rs:117-129 | any other text does not parse |
| `Prices.Advance` | rust/src/budget.rs:95-106 | the inner loop stops at the first later quote, and runs past the end exactly on the last time there is |
| `Prices.FillHistoricalPrices` | rust/src/budget.rs:91-110 | for all inputs each transaction is priced by the first quote later than it and all before it; fails exactly on no quotes or a time of u32::MAX; at most one step per transaction and per quote |
| `Prices.PricedOnItsOwn` | rust/src/budget.rs:91-110 | on sorted inputs each transaction gets the last quote not after it, or the first one when none precedes it |
| `Prices.PricedByLatest` | rust/src/budget.rs:91-110 | with sorted quotes and transactions in any order, each gets the last quote not after the largest of the times up to its own place, or the first quote |
| `Prices.OwnQuoteIff` | rust/src/budget.rs:91-110 | and it takes the quote of its own time exactly when the next quote is later than every transaction before it |
| `Contacts.ParseNote` | rust/src/contacts.rs:404-431 | the line loop returns the addresses and the notes that the specification reads from the lines |
| `Contacts.LinesOfNote` | rust/src/contacts.rs:322-347 | for every notes text, the lines of the written note are its pieces without a return at their ends, a blank one, the label and one URI per address |
| `Contacts.LinesOfText` | rust/src/contacts.rs:409-410 | the lines of any text: the pieces between its newlines without one return at their ends, the last one as it is and left out when empty |
| `Contacts.AddressOfIff` | rust/src/contacts.rs:414-425 | a line gives an address exactly when it is, trimmed, a valid one, with or without the URI scheme |
| `Contacts.LinesRead` | rust/src/contacts.rs:404-431 | any lines read as the lines that are notes, put together in order, |
| `Contacts.NoteReadsAs` | rust/src/contacts.rs:404-431 | what is read back: the contact's addresses after those its note lines hold, and the note lines that are notes |
| `Contacts.NoteRoundTripIff` | rust/src/contacts.rs:322-431 | for every notes text, addresses and notes come back unchanged if and only if every note line is a note that no return ends and no white space surrounds the notes |
| `ContactBook.Contacts.ImportContact` | rust/src/contacts.rs:477-529 | a known contact keeps its addresses and gets those it lacks, written address by address |
| `ContactBook.ImportOneStores` | rust/src/contacts.rs:477-529 | an import of one contact replaces its notes and keeps its addresses before those it lacks, up to the first that cannot be stored; no other contact changes |
| `ContactBook.Contacts.Import` | rust/src/contacts.rs:470-532 | the import loop computes the specified merge, contact by contact |
| `ContactBook.ImportNeverDrops` | rust/src/contacts.rs:477-529 | an import, even one that fails half-way, drops no stored address of any contact |
| `ContactBook.ImportTwice` | rust/src/contacts.rs:477-529 | importing the same duplicate-free contacts twice is importing them once |
| `ContactBook.ListContacts` | rust/src/contacts.rs:119-151 | the grouping loop begins a contact at each new id and adds every other row's address to the contact begun last |
| `ContactBook.SortedTogether` | rust/src/contacts.rs:101-108 | sorting by the unique name makes the rows of each contact stand together |
| `ContactBook.ListedOnce` | rust/src/contacts.rs:101-151 | the list has one contact per id, in the order of names, with exactly its own name, notes and addresses |

## Left out

- `Recover.LedgerDerivationFromSeed`: needs that some candidate of the retry loop has its bit clear, because the HMAC is an arbitrary function here.
- `ChangeAddresses.NextIndexMoves`: an index of 2^32 is a failure here, where the program would overflow its u32.
- `Ledger.CalculateBalance`: fails on a final sum past i64; an intermediate sum past i64, which SQLite refuses too, is not modelled.
- `Exporting.ExportAccount`: reads one state of the tables; writes between its queries are not modelled.
- `RoundTrip.ExportThenImport`: needs a wallet whose rows belong to its accounts and refer to rows that are there, which every wallet reached by `Lifecycle.SoundAlways` is; and a well-formed account, whose unique columns are unique, whose references resolve and whose memos agree with their note or output, which the sync engine would have to keep.
- `Dkg.LoopIsMigration`: needs at most one secret per round, because the migration's scalar query picks an unspecified one among several.
- `SharedTables.AssetsRestoredIff`: needs the law that an asset's base determines its identity, which is a property of the hash function.
- `Importing.Wallet.InsertAccount`: among several folders of one name, which the schema allows, the model takes the newest; the query names none.
- `Lifecycle.ChangeKeepsSound`: a row is recorded with what its caller looked up, that is rows of the same account no higher in the chain; the callers in the sync engine are not part of this model.
- `AccountRecords.AccountRestored`: decoding of a key and derivation of a Sapling address are given functions that may fail.
- The wallet's swaps, prices and FROST signing tables, which a backup does not hold.
- The columns that a backup omits: `diversifier_index`, and `zsa_value` and `asset_id` of a transaction.
- `Lifecycle.SoundAlways`: reorders and edits of an account's own columns, which touch no row that refers to another, are not among its steps.
- `Swaps.SwapTable.ReadSwaps`: finding the requested deadline in a provider's JSON and reading a time in its text; both are given with the quote.
- A transaction without a type: the export reads it as a number, so a NULL would fail there.
- The document's version check, JSON, zstd and the age encryption.
- The ZSA part and the type of `summarize_tx`, and `apply_tx_details`: the sums above concern ZEC only.
- Checks of a quote before it is saved, `funding_recipient`, and all HTTP.
- Transparent address sweeps and the sync engine, which may add rows outside the modelled steps.
- Cryptography: key derivation, note decryption, address encodings.
- DNS lookups and DNSSEC around OA1 records; price fetching; floating-point prices are reals.
- The vCard library and the `X-ZCASH-ADDRESS` extension lines; search of contacts by receiver.
- Databases of other file formats, password changes, migrations other than that of the key-generation packages.
