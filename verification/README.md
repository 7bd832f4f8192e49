# PJLIB-UTIL in Dafny

A model of the protocol and codec code of PJLIB-UTIL, the utility library of PJSIP that is kept under
`iphone/pjsip/src/pjlib-util`, with proofs of what that code keeps, undoes and computes.
`dafny verify dfyconfig.toml` checks all of it.

| files | what they model |
|---|---|
| `Resolver`, `ResolverLaws`, `ResolverRetry`, `ResolverProgress`, `ResolverWrap`, `ResolverTable`, `ResolverQueries`, `ResolverCache` | the asynchronous caching DNS resolver |
| `DnsPacket`, `DnsPrinter`, `DnsSizes`, `DnsServer`, `DnsParser`, `DnsRoundTrip`, `DnsNames`, `DnsWire`, `DnsOnWire`, `DnsCopy` | the DNS packet printer with its compression table, the parser, the packets on the wire that both are about, and packet copies |
| `Scanner`, `Xml`, `XmlParser`, `XmlSizes`, `XmlPrinter`, `XmlRoundTrip`, `XmlExact`, `XmlLayout`, `XmlPrinted` | the text scanner; XML trees and their texts |
| `Json`, `JsonParser`, `JsonWriter`, `JsonRoundTrip`, `JsonExact`, `JsonLayout`, `JsonPrinted` | JSON trees and their texts |
| `Telnet`, `TelnetRules` | telnet option negotiation between two endpoints, and the rules of the standards |
| `Getopt`, `GetoptLayout` | short-option scanning that permutes argv, and the command lines it reads |
| `Md5`, `Crc32`, `Base64`, `StringEscape`, `Hex`, `Strings` | streaming digests, codecs and escapes |
| `SrvResolver` | priority and weight ordering of SRV records |
| `Bytes`, `Buffers`, `Wrappers` | bytes, words and sequences |

## How the model is built

Code that changes state is a class or a method on an array or a scanner. Its contract ties the new state to
a function of the old one, and the properties are proved about those functions. Parsers and printers have
one function each that says what text or tree they deal with; the loops and recursions of the source are
methods proved against them, and the round trips are lemmas that join the two functions.

What a packet, a text or a command line means is said once more without these functions, in the words of the
standards: `DnsWire`, `XmlLayout`, `JsonLayout` and `GetoptLayout` lay out whatever may be written, in numbers and
characters, and prove that the parsers read exactly that; `DnsOnWire`, `XmlPrinted` and `JsonPrinted` prove that what is
printed is one of these layouts. `TelnetRules`, `ResolverRetry` and `ResolverLaws` state rules on the steps in the same
way. Test values of the standards are lemmas beside the codecs.

The resolver is a state machine. A section of code that runs with the mutex held is one step, and so is each
callback to the application, made without it. Elapsed timers wait in `popped` until their `on_timeout` gets
the mutex, so a response may come in between. `place`, `fate`, `notified`, `hits` and `stored` are not in the
resolver's memory: they record where each node is, what became of each callback, and what each key was last
given, so that the claims can be stated. A run is any sequence of steps that are enabled.

Random numbers, the time, the results of transmitting a packet, the bytes behind the end of a packet and the
MD5 block transform are parameters. Memory pools are fresh arrays, hash tables are maps, lists are sequences.
Exceptions are results. The little-endian configuration is modelled.

What callers are asked for is written as preconditions or as the predicate of enabled steps: a new query's
identifier is not that of a pending query or an outstanding timer (`WrappedIdLosesQuery` and
`StaleTimerLosesQuery` show why, on states that runs reach), only pending queries are cancelled, each once, and the scanner's buffer ends
with a zero byte. A printer is given the bytes that its size argument promises; more memory is asked for only in
the runs that go beyond them (`NodeBeyond`, `DocumentBeyond`, `PacketReach`), and lemmas say which these are.

## What the code does otherwise than its documentation says

- dns_server.c:402: the query loop does not take the four bytes of type and class off the room left, so that
  more than the stated size may be printed: for exactly the packets with a query, other than those with one
  query and no record (`DnsSizes.SizeKeptExactly`). Every answer of the server with a record is among them
  (`AnswerBeyond`). The excess is at most four bytes for each query (`PrintedBound`); packets smaller than the
  size are never concerned (`SmallerIsKept`). dns_server.c:230 writes a pointer of two bytes without a check, so
  that a run that fails may write beyond the size as well (`PointerBeyond`). No run does, whatever the size, for
  exactly the packets with one query and no record, and those without a query in which no name of a record is
  found in the table of names (`DnsSizes.NeverBeyondExactly`).
- dns_server.c:225: names are compared with the bytes in the packet, where length bytes have taken the place
  of dots. Only names of one label are ever compressed, except that a length byte may look like a character
  of another name; `RoundTripExactly` gives the exact condition.
- dns.c:169: a pointer to the end of a name, behind a label, leaves a dot at the end of the text
  (`DnsWire.NameIsRead`). dns.c:350: the length field of a record is only compared with the packet's size; the data of the
  types that are understood are read whatever it says (`DnsWire.RecordIsRead`).
- xml.c:163: a line break behind the name in an end tag is taken for a part of the name, so that the text is refused
  (`XmlLayout.LaidOutRead`, whose layouts have such a name).
- cli_telnet.c:479: the negotiation differs from the method of RFC 1143 in four places, which `RequestFollowsExactly` and
  `ReceiptFollowsExactly` name.
- xml.c:251: the end of an empty node is written without a check. The size is exceeded exactly when it falls on
  the last three characters of an empty node that ends with the value of an attribute (`BeyondExactly`); a
  parent of that node then returns -1 (`BeyondInsideFails`), the node itself more than the size
  (`PrintedBeyondExactly`).
- xml.c:322: with a prolog, the failure of the printer is added to the prolog's length and not reported; the
  prolog alone is returned, even for a text that the buffer could hold (`FailureReportedExactly`, `PrologAlone`).
- xml.c:94 promises -1 in its header for too little room; without a prolog that is what happens.
- json.c:213: a string without a name, and a name, are taken as they stand in the text, though they were escaped
  when written, and without the blanks in front; they survive exactly when they are not empty, need no
  escaping and do not start with a space (`UnnamedStringSurvives`, `NameSurvives`).
- json.c:262: the comparison with `false` needs five characters, so that of the words only `false` survives as
  a root (`LastWord`, `JsonExact.RoundTripExactly`).
- base64.c:164: the assertion after decoding is stricter than the size check; output that fills the buffer
  exactly violates it, as every encoding does in the smallest buffer the check accepts (`EncodingFillsRoom`,
  `AssertionHoldsExactly`). base64.c:134 reads the last character before it looks at the length.
- dns.c:163: the check of a label's length compares it with the packet's size and not with the place of the
  label; the check after the label catches what it misses.
- string.c:61: the copying unescape does not look whether an escape has hexadecimal digits; `ReadingsAgree` says
  on which texts that matters.
- dns.c:557: names are compared by a function that stops at a zero byte, and a name from the wire may have one;
  a copy may then hold another name (`CopyKeepsExactly`, `MistakenName`).
- json.c:518: the indentation is not checked against its buffer of 100 bytes, which holds exactly 33 levels
  (`IndentFitsExactly`, `NestedFits`).

## Model

| member | source | states |
|---|---|---|
| `Resolver.NextKeeps` | iphone/pjsip/src/pjlib-util/src/pjlib-util/resolver.c:740-892 | every step of the protocol (cache hit, its callback, its release, start, cancel, elapsed timer, timeout, response, callback, completion, cache entry) keeps the whole invariant: both tables agree, every node is in one place, timers, transmission counts, reference counts, the fate of every callback |
| `Resolver.EnabledIsSafe` | iphone/pjsip/src/pjlib-util/src/pjlib-util/resolver.c:1191-1298 | in a state that keeps the invariant, a step that may be taken refers only to existing nodes and to cache entries that have not been released |
| `Resolver.RunKeeps` | iphone/pjsip/src/pjlib-util/src/pjlib-util/resolver.c:1389-1557 | the invariant holds after every sequence of enabled steps, that is, under every interleaving |
| `Resolver.NeverTwice` | iphone/pjsip/src/pjlib-util/src/pjlib-util/resolver.c:1354-1364 | after any run, no callback has been notified twice, and exactly those recorded as notified have been |
| `Resolver.ExactlyOnce` | iphone/pjsip/src/pjlib-util/src/pjlib-util/resolver.c:1499-1512 | when nothing is pending, being completed or being answered from the cache, every accepted query has been notified exactly once by cache hit, response, timeout or cancellation, unless it was cancelled without notification |
| `Resolver.AcceptedIsRecorded` | iphone/pjsip/src/pjlib-util/src/pjlib-util/resolver.c:843-892 | a query is recorded as accepted exactly when it joins a pending query or its transmission succeeds |
| `Resolver.FatesKept` | iphone/pjsip/src/pjlib-util/src/pjlib-util/resolver.c:898-915 | no step forgets an accepted query or takes back a notification |
| `Resolver.AlwaysConsistent` | iphone/pjsip/src/pjlib-util/src/pjlib-util/resolver.c:880-884 | after any run: the tables by identifier and by key hold the same queries, each node is in exactly one of pending, child, being completed and free, every pending query has a running or elapsed timer and was transmitted between 1 and max(1, qretr_count) times, and each live cache entry counts exactly its holders |
| `Resolver.CacheHoldsLastUpdate` | iphone/pjsip/src/pjlib-util/src/pjlib-util/resolver.c:1191-1298 | along any run the cache holds, for every key, what the last step concerned with the key has given: a response with its time to live, or nothing |
| `Resolver.HitDeliversLastUpdate` | iphone/pjsip/src/pjlib-util/src/pjlib-util/resolver.c:783-828 | after any run, a cache hit delivers the response given last to the key: its identifier, flags, as many queries and answers and no other section, these two sections equal up to letter case exactly when no name of theirs was mistaken in copying; given with an expiry, its age is below every answer's time to live, or a minute when no answer is usable, and below the configured maximum |
| `Resolver.FoundAfterRun` | iphone/pjsip/src/pjlib-util/src/pjlib-util/resolver.c:780-789 | after any run, a lookup finds a response if and only if the run has given one to the key and it may still be delivered |
| `Resolver.KeepableLives` | iphone/pjsip/src/pjlib-util/src/pjlib-util/resolver.c:1213-1251 | a response is kept at all exactly when the configured maximum is not zero and, given with an expiry, no answer has a time to live of zero |
| `Resolver.PacketStaysDuringCallback` | iphone/pjsip/src/pjlib-util/src/pjlib-util/resolver.c:800-822 | while a callback uses a cache entry, the entry is live and still holds the packet that was found |
| `ResolverRetry.TimeoutRetransmits` | iphone/pjsip/src/pjlib-util/src/pjlib-util/resolver.c:1329-1335 | a query whose timer has elapsed, transmitted fewer times than configured, is transmitted again when the attempt goes: it stays under its identifier and key with its timer running and one transmission more, and nobody is told |
| `ResolverRetry.TimeoutGivesUp` | iphone/pjsip/src/pjlib-util/src/pjlib-util/resolver.c:1336-1349 | otherwise it leaves both tables, no other query does, and the callbacks of its family are to be called, its own first |
| `ResolverRetry.StaleTimeoutIgnored` | iphone/pjsip/src/pjlib-util/src/pjlib-util/resolver.c:1316-1324 | the timer of a query that is done changes nothing |
| `ResolverRetry.RunCounts` | iphone/pjsip/src/pjlib-util/src/pjlib-util/resolver.c:578-670 | the count in the node of a pending query is the number of its transmissions in the run |
| `ResolverRetry.GivenUpAfterAll` | iphone/pjsip/src/pjlib-util/src/pjlib-util/resolver.c:1329-1349 | a query that a timeout completes in any run has been transmitted exactly max(1, qretr_count) times, unless its last attempt failed |
| `ResolverLaws.RunRecords` | iphone/pjsip/src/pjlib-util/src/pjlib-util/resolver.c:895-915 | exactly those callbacks are recorded as called, and those as silenced, that the steps of the run call and cancel without notice |
| `ResolverLaws.CalledOnceInRun` | iphone/pjsip/src/pjlib-util/src/pjlib-util/resolver.c:1354-1364 | no callback is called twice in a run, and none that was cancelled without notice |
| `ResolverLaws.CalledInOrder` | iphone/pjsip/src/pjlib-util/src/pjlib-util/resolver.c:1499-1512 | in any run the callbacks of a query and of those that joined it are called in the order of their calls of start_query, and the nodes are put away only after the last |
| `ResolverLaws.RunStatus` | iphone/pjsip/src/pjlib-util/src/pjlib-util/resolver.c:1481-1520 | the status with which a response goes into the cache is the one it came with |
| `ResolverLaws.PendingBetween` | iphone/pjsip/src/pjlib-util/src/pjlib-util/resolver.c:863-892 | a key becomes pending only by a call of start_query for it, and ceases to be only by a response with its identifier, which always ends it, or by its own timer |
| `ResolverLaws.StartSends` | iphone/pjsip/src/pjlib-util/src/pjlib-util/resolver.c:863-887 | a new query takes the first free node or a new one and the next identifier, which skips zero; sent, it is in both tables with its timer running; not sent, its node is the last of the free ones |
| `ResolverLaws.FinishFrees` | iphone/pjsip/src/pjlib-util/src/pjlib-util/resolver.c:1366-1384 | when the last callback has returned, the children in their order and then the query go behind the free nodes |
| `ResolverLaws.HitIsForCaller` | iphone/pjsip/src/pjlib-util/src/pjlib-util/resolver.c:783-812 | a cached response goes to the callback of the query that finds it |
| `ResolverProgress.AcceptedIsNotified` | iphone/pjsip/src/pjlib-util/src/pjlib-util/resolver.c:1499-1512 | a query that any step of a run accepts has been notified exactly once when the run comes to rest, unless it was cancelled silently |
| `ResolverProgress.UnfinishedMoves` | iphone/pjsip/src/pjlib-util/src/pjlib-util/resolver.c:1302-1384 | a reachable state in which something is pending, being completed or being answered always allows a step that finishes work |
| `ResolverProgress.RunsEnd` | iphone/pjsip/src/pjlib-util/src/pjlib-util/resolver.c:1302-1384 | without new queries a run cannot go on for ever: a measure bounds the number of its steps |
| `ResolverProgress.ComesToRest` | iphone/pjsip/src/pjlib-util/src/pjlib-util/resolver.c:1302-1384 | from every reachable state there is a run without new queries that comes to rest |
| `ResolverWrap.WrappedIdLosesQuery` | iphone/pjsip/src/pjlib-util/src/pjlib-util/resolver.c:868-884 | why identifiers must not wrap onto a pending one: the response then completes the new query only, and no timeout completes the old one |
| `ResolverWrap.WrapIsReached` | iphone/pjsip/src/pjlib-util/src/pjlib-util/resolver.c:863-887 | a run comes to such a state: a query that stays pending, and 65534 that cannot be sent |
| `ResolverWrap.StaleTimerLosesQuery` | iphone/pjsip/src/pjlib-util/src/pjlib-util/resolver.c:1316-1349 | nor onto that of an outstanding timer: when it elapses, the new query can be found by identifier no more, neither by a response nor by its own timeout |
| `ResolverWrap.StaleWrapIsReached` | iphone/pjsip/src/pjlib-util/src/pjlib-util/resolver.c:863-887 | and to such a state: the timer has elapsed and waits, the response has come, and its callback takes as long as 65534 queries |
| `Resolver.HitsUnchanged` | iphone/pjsip/src/pjlib-util/src/pjlib-util/resolver.c:800-822 | no step changes what the callback of a cache hit in progress is looking at |
| `Resolver.DnsResolver.StartQuery` | iphone/pjsip/src/pjlib-util/src/pjlib-util/resolver.c:740-892 | refused exactly when the name is empty or has 128 characters or more, or the type is below 1 or above 65534; otherwise the effect is the cache-hit step or the start step for the lower-case key |
| `Resolver.DnsResolver.FinishHit` | iphone/pjsip/src/pjlib-util/src/pjlib-util/resolver.c:814-827 | releases the reference of the callback that has returned |
| `Resolver.DnsResolver.CancelQuery` | iphone/pjsip/src/pjlib-util/src/pjlib-util/resolver.c:898-915 | takes the callback of a pending query away, and returns it |
| `Resolver.DnsResolver.OnTimeout` | iphone/pjsip/src/pjlib-util/src/pjlib-util/resolver.c:1302-1352 | one timeout step: ignored when the query is done, else retransmission or removal from both tables |
| `Resolver.DnsResolver.OnReadComplete` | iphone/pjsip/src/pjlib-util/src/pjlib-util/resolver.c:1467-1494 | a response that no query waits for changes nothing; otherwise the timer is cancelled and the query leaves both tables |
| `Resolver.DnsResolver.Notify` | iphone/pjsip/src/pjlib-util/src/pjlib-util/resolver.c:1354-1364 | the callback of the next member of a family, the query first and its children in order |
| `Resolver.DnsResolver.EndTimeout` | iphone/pjsip/src/pjlib-util/src/pjlib-util/resolver.c:1366-1384 | the children and then the query go into the free list |
| `Resolver.DnsResolver.EndResponse` | iphone/pjsip/src/pjlib-util/src/pjlib-util/resolver.c:1514-1532 | the response goes into the cache under the key of the query, then the nodes into the free list |
| `ResolverTable.ChildKeeps` | iphone/pjsip/src/pjlib-util/src/pjlib-util/resolver.c:843-861 | merging a query into a pending one for the same key keeps the invariant |
| `ResolverTable.StartedKeeps` | iphone/pjsip/src/pjlib-util/src/pjlib-util/resolver.c:863-887 | starting a new query keeps the invariant, provided its identifier is not one of a pending query or an outstanding timer |
| `ResolverTable.FailedKeeps` | iphone/pjsip/src/pjlib-util/src/pjlib-util/resolver.c:873-878 | giving up a query that could not be transmitted keeps the invariant |
| `ResolverTable.TimeoutKeeps` | iphone/pjsip/src/pjlib-util/src/pjlib-util/resolver.c:1302-1349 | a timeout keeps the invariant in all three cases, also for a stale timer of a node used again |
| `ResolverTable.TimerOwner` | iphone/pjsip/src/pjlib-util/src/pjlib-util/resolver.c:1316-1324 | the recheck of on_timeout is right: the identifier of the timed-out node is in the table exactly when that very node is pending |
| `ResolverTable.AnswerKeeps` | iphone/pjsip/src/pjlib-util/src/pjlib-util/resolver.c:1484-1491 | a response keeps the invariant |
| `ResolverTable.TablesHoldPending` | iphone/pjsip/src/pjlib-util/src/pjlib-util/resolver.c:880-884 | both tables hold exactly the pending queries, no query under two identifiers or two keys |
| `ResolverTable.EveryNodeInOnePlace` | iphone/pjsip/src/pjlib-util/src/pjlib-util/resolver.c:1369-1382 | each node is in exactly one of four places, and is the child of at most one query |
| `ResolverTable.PendingIsTimed` | iphone/pjsip/src/pjlib-util/src/pjlib-util/resolver.c:1326-1345 | a pending query has a running or elapsed timer, and between 1 and max(1, retries) transmissions |
| `ResolverTable.QueryTable.AllocNode` | iphone/pjsip/src/pjlib-util/src/pjlib-util/resolver.c:546-572 | the first free node, or a new one, is cleared and given the callback |
| `ResolverTable.QueryTable.TransmitQuery` | iphone/pjsip/src/pjlib-util/src/pjlib-util/resolver.c:578-670 | succeeds exactly when a server is known, the timer was not running, and the socket is busy or the packet could be made; otherwise nothing is changed |
| `ResolverTable.QueryTable.AddChild` | iphone/pjsip/src/pjlib-util/src/pjlib-util/resolver.c:843-861 | the node of the new query is appended to the children of the pending one |
| `ResolverTable.QueryTable.StartNew` | iphone/pjsip/src/pjlib-util/src/pjlib-util/resolver.c:863-887 | the new query is in both tables, or its node is in the free list again |
| `ResolverTable.QueryTable.CancelQuery` | iphone/pjsip/src/pjlib-util/src/pjlib-util/resolver.c:898-915 | the callback is taken from the node |
| `ResolverTable.QueryTable.OnTimeout` | iphone/pjsip/src/pjlib-util/src/pjlib-util/resolver.c:1316-1349 | retransmission while the count allows and it succeeds, else removal from both tables |
| `ResolverTable.QueryTable.OnResponse` | iphone/pjsip/src/pjlib-util/src/pjlib-util/resolver.c:1467-1491 | the query with the identifier, if any, loses its timer and leaves both tables |
| `ResolverTable.QueryTable.CallNext` | iphone/pjsip/src/pjlib-util/src/pjlib-util/resolver.c:1354-1364 | the callback to be called is that of the next node |
| `ResolverTable.QueryTable.Recycle` | iphone/pjsip/src/pjlib-util/src/pjlib-util/resolver.c:1373-1382 | all nodes of the family are appended to the free list in order |
| `ResolverQueries.AllocateKeeps` | iphone/pjsip/src/pjlib-util/src/pjlib-util/resolver.c:546-572 | allocating a node keeps the invariant |
| `ResolverQueries.LinkKeeps` | iphone/pjsip/src/pjlib-util/src/pjlib-util/resolver.c:853-854 | appending a child to a pending query keeps the invariant |
| `ResolverQueries.NameKeeps` | iphone/pjsip/src/pjlib-util/src/pjlib-util/resolver.c:866-871 | giving a node an identifier nobody has keeps the invariant, and nobody has it afterwards |
| `ResolverQueries.TransmitKeeps` | iphone/pjsip/src/pjlib-util/src/pjlib-util/resolver.c:600-669 | transmitting within the allowed number keeps the invariant |
| `ResolverQueries.EnterKeeps` | iphone/pjsip/src/pjlib-util/src/pjlib-util/resolver.c:880-884 | entering a transmitted node into both tables keeps the invariant |
| `ResolverQueries.CancelKeeps` | iphone/pjsip/src/pjlib-util/src/pjlib-util/resolver.c:907-911 | cancelling a pending query, notified or silently, keeps the invariant |
| `ResolverQueries.RemoveKeeps` | iphone/pjsip/src/pjlib-util/src/pjlib-util/resolver.c:1347-1349 | taking a query out of both tables keeps the invariant |
| `ResolverQueries.CallsDistinct` | iphone/pjsip/src/pjlib-util/src/pjlib-util/resolver.c:1501-1512 | the callbacks still to be called belong to distinct members of the family |
| `ResolverQueries.CallKeeps` | iphone/pjsip/src/pjlib-util/src/pjlib-util/resolver.c:1354-1364 | calling the next callback keeps the invariant; that callback was waiting and is now notified |
| `ResolverQueries.RecycleKeeps` | iphone/pjsip/src/pjlib-util/src/pjlib-util/resolver.c:1373-1382 | putting a completed family into the free list keeps the invariant |
| `ResolverCache.KeysAgree` | iphone/pjsip/src/pjlib-util/src/pjlib-util/resolver.c:676-693 | two valid questions without zero bytes have the same key exactly when their types are equal and their names equal up to letter case |
| `ResolverCache.InitKey` | iphone/pjsip/src/pjlib-util/src/pjlib-util/resolver.c:676-693 | the key is the type with the lower-case name, padded with zeros |
| `ResolverCache.LiveExactlyWhileHeld` | iphone/pjsip/src/pjlib-util/src/pjlib-util/resolver.c:800-822 | a cache entry is live exactly while the table or a callback holds it |
| `ResolverCache.EndKeeps` | iphone/pjsip/src/pjlib-util/src/pjlib-util/resolver.c:814-822 | the end of a callback keeps the invariant and releases the entry exactly with its last holder |
| `ResolverCache.BeginKeeps` | iphone/pjsip/src/pjlib-util/src/pjlib-util/resolver.c:800-805 | a cache hit keeps the invariant |
| `ResolverCache.DiscardKeeps` | iphone/pjsip/src/pjlib-util/src/pjlib-util/resolver.c:830-838 | removing an expired entry keeps the invariant, also while callbacks use it |
| `ResolverCache.PutKeeps` | iphone/pjsip/src/pjlib-util/src/pjlib-util/resolver.c:1252-1296 | storing keeps the invariant: the old entry is used again only when no callback uses it |
| `ResolverCache.UpdateKeeps` | iphone/pjsip/src/pjlib-util/src/pjlib-util/resolver.c:1191-1298 | an update makes the response the one stored last for its key, or clears the key when it may not be kept, touches no other key and no callback in progress, and keeps the invariant |
| `ResolverCache.HitIsLastStored` | iphone/pjsip/src/pjlib-util/src/pjlib-util/resolver.c:783-828 | what a lookup finds is the kept copy of the response stored last, younger than its time to live: its identifier, flags, queries and answers and nothing of the other sections, equal up to the case of names exactly when no name was mistaken in copying |
| `ResolverCache.FoundExactly` | iphone/pjsip/src/pjlib-util/src/pjlib-util/resolver.c:780-789 | a lookup finds an entry exactly when one is stored and, stored with an expiry, less time has passed than its time to live |
| `ResolverCache.KeptExactly` | iphone/pjsip/src/pjlib-util/src/pjlib-util/resolver.c:1272-1284 | the copy that is kept has all queries and answers of the response and no name server and additional records; they are equal to those of the response up to letter case exactly when no name of the two sections is mistaken |
| `ResolverCache.TtlOfResponse` | iphone/pjsip/src/pjlib-util/src/pjlib-util/resolver.c:1213-1237 | the time to live is the least of the configured maximum and the shortest answer, of the maximum and a minute without a usable answer, and the maximum when there is to be no expiry |
| `ResolverCache.ResponseCache.Release` | iphone/pjsip/src/pjlib-util/src/pjlib-util/resolver.c:820-822 | one reference is dropped, and the entry is released at zero |
| `ResolverCache.ResponseCache.Lookup` | iphone/pjsip/src/pjlib-util/src/pjlib-util/resolver.c:780-841 | finds the unexpired entry of the key and takes a reference, or removes the expired one |
| `ResolverCache.ResponseCache.ResponseTtl` | iphone/pjsip/src/pjlib-util/src/pjlib-util/resolver.c:1213-1237 | the loop over the answers computes the time to live |
| `ResolverCache.ResponseCache.Store` | iphone/pjsip/src/pjlib-util/src/pjlib-util/resolver.c:1252-1296 | stores the copy without the name server and additional sections, in the old entry or a new one |
| `ResolverCache.ResponseCache.Update` | iphone/pjsip/src/pjlib-util/src/pjlib-util/resolver.c:1191-1298 | the whole update, with its three cases |
| `DnsServer.LabelTable.Find` | iphone/pjsip/src/pjlib-util/src/pjlib-util/dns_server.c:223-227 | the search compares with the bytes in the packet and finds the first entry whose body equals the name |
| `DnsServer.WriteLabels` | iphone/pjsip/src/pjlib-util/src/pjlib-util/dns_server.c:241-272 | writes the spelled-out name exactly when it fits, else -1 |
| `DnsServer.PrintName` | iphone/pjsip/src/pjlib-util/src/pjlib-util/dns_server.c:214-273 | writes the pointer or the spelled-out name; every name of the table stays spelled out in the packet, so no pointer leads to a pointer |
| `DnsServer.PrintAlias` | iphone/pjsip/src/pjlib-util/src/pjlib-util/dns_server.c:314-328 | the length filled in last is that of the printed name |
| `DnsServer.PrintService` | iphone/pjsip/src/pjlib-util/src/pjlib-util/dns_server.c:330-348 | priority, weight, port and target with their length |
| `DnsServer.PrintRecord` | iphone/pjsip/src/pjlib-util/src/pjlib-util/dns_server.c:275-356 | the bytes of the record, or -1 exactly when a size check fails or the type is not supported |
| `DnsServer.PrintQueries` | iphone/pjsip/src/pjlib-util/src/pjlib-util/dns_server.c:382-403 | the query section, or -1 exactly when a size check fails; the room left is too large by four bytes per query |
| `DnsServer.PrintPacket` | iphone/pjsip/src/pjlib-util/src/pjlib-util/dns_server.c:358-436 | the bytes of the packet, or -1 exactly when a size check fails; asks for the stated size, and for more only as far as the run writes |
| `DnsSizes.PacketHasRoom` | iphone/pjsip/src/pjlib-util/src/pjlib-util/dns_server.c:358-436 | a buffer one byte larger than the packet always passes every size check |
| `DnsSizes.FitsExactly` | iphone/pjsip/src/pjlib-util/src/pjlib-util/dns_server.c:358-436 | a packet of supported records is printed if and only if the size is at least its length without four bytes for each query (but one, without records), and one more when the last name is that of the root, spelled out |
| `DnsSizes.SizeKeptExactly` | iphone/pjsip/src/pjlib-util/src/pjlib-util/dns_server.c:382-403 | no packet longer than the stated size is ever returned, whatever the size, if and only if there is no query, or one query and no record |
| `DnsSizes.PrintedBound` | iphone/pjsip/src/pjlib-util/src/pjlib-util/dns_server.c:358-436 | a packet that is printed exceeds the size by at most four bytes for each query, the last query only when records follow |
| `DnsSizes.SmallerIsKept` | iphone/pjsip/src/pjlib-util/src/pjlib-util/dns_server.c:358-436 | a packet smaller than the size is printed, and nothing is written beyond the size |
| `DnsSizes.AnswerBeyond` | iphone/pjsip/src/pjlib-util/src/pjlib-util/dns_server.c:438-545 | an answer with one query and one address takes 35 bytes where 34 were said to be |
| `DnsSizes.NeverBeyondExactly` | iphone/pjsip/src/pjlib-util/src/pjlib-util/dns_server.c:214-436 | no run, successful or not, writes beyond any size if and only if there is one query and no record, or no query and no record whose name is found in the table |
| `DnsSizes.PointerBeyond` | iphone/pjsip/src/pjlib-util/src/pjlib-util/dns_server.c:223-232 | two records of one name without a query: 31 bytes are written into 29 or 30 and the run fails; behind a query for the name the bound on all runs is met |
| `DnsSizes.ReachBound` | iphone/pjsip/src/pjlib-util/src/pjlib-util/dns_server.c:214-436 | no run, failing ones included, exceeds the size by more than four bytes for each query and two for a pointer |
| `DnsParser.PassesAgree` | iphone/pjsip/src/pjlib-util/src/pjlib-util/dns.c:118-244 | for every packet, position and depth, pointer cycles included: the measuring and the copying pass fail alike, and on success the text has exactly the measured length |
| `DnsParser.CycleRefused` | iphone/pjsip/src/pjlib-util/src/pjlib-util/dns.c:125-129 | a pointer to itself is refused |
| `DnsParser.GetNameLen` | iphone/pjsip/src/pjlib-util/src/pjlib-util/dns.c:118-182 | the loop and the recursion compute the measure; they end on every packet |
| `DnsParser.GetName` | iphone/pjsip/src/pjlib-util/src/pjlib-util/dns.c:188-244 | after a successful measure it succeeds, copies labels only from inside the packet, and writes exactly the measured bytes |
| `DnsParser.ParseQuery` | iphone/pjsip/src/pjlib-util/src/pjlib-util/dns.c:248-285 | the query at the position |
| `DnsParser.ParseRecord` | iphone/pjsip/src/pjlib-util/src/pjlib-util/dns.c:289-425 | the record at the position, or the error of the first check that fails |
| `DnsParser.ParsePacket` | iphone/pjsip/src/pjlib-util/src/pjlib-util/dns.c:431-540 | the packet, or the first error |
| `DnsWire.NameIsRead` | iphone/pjsip/src/pjlib-util/src/pjlib-util/dns.c:118-244 | a name that lies in a packet in labels and pointers, each pointer leading to the rest, is read back as its labels with dots, and takes its own bytes, if and only if nothing in it leads out of the packet and there are at most ten pointers |
| `DnsWire.RecordIsRead` | iphone/pjsip/src/pjlib-util/src/pjlib-util/dns.c:289-425 | a record of any of the six kinds of data, spelled out byte by byte with any length field, is read back and takes exactly its bytes, unless its type is understood and its class is not that of the internet, or the length field leads out of the packet |
| `DnsWire.RecordsAreRead` | iphone/pjsip/src/pjlib-util/src/pjlib-util/dns.c:482-532 | and so is any sequence of records of mixed types |
| `DnsWire.PacketIsRead` | iphone/pjsip/src/pjlib-util/src/pjlib-util/dns.c:431-540 | a whole packet, spelled out byte by byte with names compressed in any way, is read as what it says, whatever stands behind it, if and only if its records that are understood have the class of the internet |
| `DnsWire.ShortPacketRefused` | iphone/pjsip/src/pjlib-util/src/pjlib-util/dns.c:444-446 | a packet that ends within its header is refused |
| `DnsRoundTrip.SpelledOutRead` | iphone/pjsip/src/pjlib-util/src/pjlib-util/dns.c:118-244 | a name spelled out in the packet is measured and read back, at whatever depth |
| `DnsRoundTrip.NameRead` | iphone/pjsip/src/pjlib-util/src/pjlib-util/dns_server.c:214-273 | a printed name is read back as the name the label table shows, following at most one pointer, also when the table is full |
| `DnsRoundTrip.RecordRead` | iphone/pjsip/src/pjlib-util/src/pjlib-util/dns_server.c:275-356 | a printed record is read back, with its names as shown |
| `DnsRoundTrip.PacketRead` | iphone/pjsip/src/pjlib-util/src/pjlib-util/dns_server.c:358-436 | for every packet of supported records whose bytes lie within 14-bit offsets: parsing what was printed gives the packet with each name as the label table shows it |
| `DnsOnWire.PrintedIsOnWire` | iphone/pjsip/src/pjlib-util/src/pjlib-util/dns_server.c:358-436 | what is printed is such a packet: each length field is the number of bytes that follow, each count that of its section, each pointer leads to the rest of its name |
| `DnsOnWire.RepeatedName` | iphone/pjsip/src/pjlib-util/src/pjlib-util/dns_server.c:214-273 | a name of one label that is not in the table is spelled out and, while the table holds less than 32 names, printed as a pointer to that place from then on |
| `DnsNames.RoundTripExactly` | iphone/pjsip/src/pjlib-util/src/pjlib-util/dns_server.c:214-436 | parsing a printed packet gives back that packet if and only if every compressed name was compared with its own spelling |
| `DnsNames.BodyOfHostName` | iphone/pjsip/src/pjlib-util/src/pjlib-util/dns_server.c:223-227 | with labels under 45 bytes and bytes above 44, only equal names have equal bodies |
| `DnsNames.RoundTrip` | iphone/pjsip/src/pjlib-util/src/pjlib-util/dns_server.c:214-436 | packets with such names survive printing and parsing |
| `DnsNames.ConfusedNames` | iphone/pjsip/src/pjlib-util/src/pjlib-util/dns_server.c:223-237 | two valid names, one with a label of 45 bytes, that the table confuses |
| `DnsCopy.CopyKeepsExactly` | iphone/pjsip/src/pjlib-util/src/pjlib-util/dns.c:622-699 | a copy is the packet without the omitted sections, equal up to letter case in names and equal in everything else, if and only if no name is mistaken for one of the table before it |
| `DnsCopy.CopyKeeps` | iphone/pjsip/src/pjlib-util/src/pjlib-util/dns.c:622-699 | it is so for every packet whose names have no zero byte before their last |
| `DnsCopy.MistakenName` | iphone/pjsip/src/pjlib-util/src/pjlib-util/dns.c:547-577 | two names that differ only behind a zero byte: the second is copied as the first |
| `DnsCopy.MistakenExactly` | iphone/pjsip/src/pjlib-util/src/pjlib-util/dns.c:547-577 | of up to sixteen names one is mistaken if and only if two of them are equal up to letter case as far as a zero byte and differ behind it |
| `DnsCopy.TableIsFull` | iphone/pjsip/src/pjlib-util/src/pjlib-util/dns.c:547-577 | a name that matches none is copied as it is, and recorded while the table holds less than sixteen |
| `DnsCopy.NameTable.Apply` | iphone/pjsip/src/pjlib-util/src/pjlib-util/dns.c:547-577 | the first matching name of the table, or the name itself, which is added while there is room |
| `DnsCopy.CopyRecord` | iphone/pjsip/src/pjlib-util/src/pjlib-util/dns.c:589-617 | the copy of a record and the table after it |
| `DnsCopy.CopyPacket` | iphone/pjsip/src/pjlib-util/src/pjlib-util/dns.c:622-699 | the copy of the packet |
| `Strings.MatchesExactly` | iphone/pjsip/src/pjlib/include/pj/string_i.h:213-229 | a name is matched only by names equal up to case if and only if it has no zero byte before its last |
| `Strings.MatchesMeans` | iphone/pjsip/src/pjlib/include/pj/string_i.h:213-229 | the comparison looks at the lengths and, up to letter case, at the bytes as far as the first zero |
| `Strings.LowerLaw` | iphone/pjsip/src/pjlib/include/pj/ctype.h:119 | each capital letter has its small letter, and nothing else has another |
| `Scanner.SkipBlanks` | iphone/pjsip/src/pjlib-util/src/pjlib-util/scanner.c:138-191 | blanks before other text are skipped |
| `Scanner.LinesCounted` | iphone/pjsip/src/pjlib-util/src/pjlib-util/scanner.c:138-191 | skipping blanks counts a line for each carriage return, line feed or both together, and remembers where the last one starts |
| `Scanner.UntilReads` | iphone/pjsip/src/pjlib-util/src/pjlib-util/scanner.c:521-568 | text without the stop characters is read up to the first of them |
| `Scanner.TextScanner.SkipWhitespace` | iphone/pjsip/src/pjlib-util/src/pjlib-util/scanner.c:138-191 | moves to the first character that is not blank and counts lines, with a carriage return and line feed as one newline |
| `Scanner.TextScanner.GetChar` | iphone/pjsip/src/pjlib-util/src/pjlib-util/scanner.c:442-457 | consumes one character other than zero and the blanks after it |
| `Scanner.TextScanner.GetUntil` | iphone/pjsip/src/pjlib-util/src/pjlib-util/scanner.c:521-568 | returns the text up to a stop character or the end; fails at the end |
| `Scanner.TextScanner.AdvanceN` | iphone/pjsip/src/pjlib-util/src/pjlib-util/scanner.c:570-583 | moves within the text or fails |
| `Scanner.TextScanner.Closes` | iphone/pjsip/src/pjlib-util/src/pjlib-util/scanner.c:383-400 | a quote closes exactly when an even number of backslashes stands before it |
| `Scanner.TextScanner.GetQuotes` | iphone/pjsip/src/pjlib-util/src/pjlib-util/scanner.c:352-421 | finds exactly the closing quote that a left-to-right reading with an escape flag finds, or fails |
| `XmlRoundTrip.AttrsRead` | iphone/pjsip/src/pjlib-util/src/pjlib-util/xml.c:106-119 | printed attributes are read back |
| `XmlRoundTrip.NodeRead` | iphone/pjsip/src/pjlib-util/src/pjlib-util/xml.c:54-174 | a printed node is read back at any depth and indentation |
| `XmlRoundTrip.RoundTrip` | iphone/pjsip/src/pjlib-util/src/pjlib-util/xml.c:54-307 | printing a valid tree at any indentation and parsing the text, whatever follows, gives the same tree |
| `XmlExact.RoundTripExactly` | iphone/pjsip/src/pjlib-util/src/pjlib-util/xml.c:54-307 | a tree whose names can be read back survives printing and parsing, at any indentation and whatever follows, if and only if no node has both children and content, contents do not start with a blank or hold a `<`, and every value of an attribute is closed by its own quote |
| `XmlRoundTrip.RoundTripWithProlog` | iphone/pjsip/src/pjlib-util/src/pjlib-util/xml.c:309-329 | the same with the prolog in front |
| `XmlRoundTrip.PrologIsNoDocument` | iphone/pjsip/src/pjlib-util/src/pjlib-util/xml.c:176-198 | the prolog alone is not parsed |
| `XmlParser.ParseAttrs` | iphone/pjsip/src/pjlib-util/src/pjlib-util/xml.c:106-119 | the loop reads the attributes |
| `XmlParser.ParseNode` | iphone/pjsip/src/pjlib-util/src/pjlib-util/xml.c:54-174 | the recursive parser reads the node, for every text |
| `XmlParser.ParseDocument` | iphone/pjsip/src/pjlib-util/src/pjlib-util/xml.c:176-198 | the tree of the text, or nothing |
| `XmlLayout.ItemsRead` | iphone/pjsip/src/pjlib-util/src/pjlib-util/xml.c:105-118 | attributes with a value in either quote, or without one, and blanks where there may be some, are read as they are meant; a value ends at the first such quote with an even number of backslashes before it |
| `XmlLayout.ValueRefused` | iphone/pjsip/src/pjlib-util/src/pjlib-util/xml.c:112 | a value without a closing quote before the end of its line is refused |
| `XmlLayout.BareValueRefused` | iphone/pjsip/src/pjlib-util/src/pjlib-util/xml.c:112 | and so is a value without quotes |
| `XmlLayout.ClosingRead` | iphone/pjsip/src/pjlib-util/src/pjlib-util/xml.c:159-171 | an end tag, with blanks in it, is accepted exactly when its name matches |
| `XmlLayout.InstructionsRead` | iphone/pjsip/src/pjlib-util/src/pjlib-util/xml.c:63-78 | processing instructions in front of a tag are skipped up to the first question mark before a closing bracket |
| `XmlLayout.TagRead` | iphone/pjsip/src/pjlib-util/src/pjlib-util/xml.c:54-174 | a tag in any layout, with its sub nodes, is read as its tree when all end tags match, else refused |
| `XmlLayout.LaidOutRead` | iphone/pjsip/src/pjlib-util/src/pjlib-util/xml.c:176-203 | a text laid out in any way (either quote, blanks, short or long empty nodes, instructions) gives its tree if and only if every end tag matches the name of its node |
| `XmlPrinted.PrintedIsLaidOut` | iphone/pjsip/src/pjlib-util/src/pjlib-util/xml.c:205-307 | what is printed for a valid tree is one of these layouts, each child on a line of its own one space further to the right, and is read back as an instance |
| `XmlPrinted.PrologIsInstruction` | iphone/pjsip/src/pjlib-util/src/pjlib-util/xml.c:309-320 | the prolog is a processing instruction with a line break |
| `XmlSizes.NodeHasRoom` | iphone/pjsip/src/pjlib-util/src/pjlib-util/xml.c:201-307 | one byte more than the text takes always passes every size check |
| `XmlSizes.FitsExactly` | iphone/pjsip/src/pjlib-util/src/pjlib-util/xml.c:205-307 | a node is printed if and only if the size is at least its length, one more for a node with children or with neither attributes nor contents, and three less for an empty node that ends with a value |
| `XmlSizes.BeyondExactly` | iphone/pjsip/src/pjlib-util/src/pjlib-util/xml.c:248-256 | a run writes b bytes beyond the size exactly when an empty node of the tree that ends with the value of an attribute ends b characters behind the size, b from 1 to 3 |
| `XmlSizes.BeyondInsideFails` | iphone/pjsip/src/pjlib-util/src/pjlib-util/xml.c:248-277 | a node that is printed although the size was exceeded is that empty node itself: every parent returns -1 |
| `XmlSizes.PrintedBeyondExactly` | iphone/pjsip/src/pjlib-util/src/pjlib-util/xml.c:248-256 | more than the size is returned exactly when the node is empty and its last three characters have no room |
| `XmlSizes.SizeKeptExactly` | iphone/pjsip/src/pjlib-util/src/pjlib-util/xml.c:201-307 | no size makes the printer return more than it if and only if the tree is not an empty node that ends with the value of an attribute |
| `XmlSizes.NeverBeyondExactly` | iphone/pjsip/src/pjlib-util/src/pjlib-util/xml.c:201-307 | no run writes beyond any size if and only if the tree has no such node |
| `XmlSizes.ShortestBeyond` | iphone/pjsip/src/pjlib-util/src/pjlib-util/xml.c:248-256 | such a tree, alone and inside a parent: three bytes beyond the size |
| `XmlPrinter.PrintAttrs` | iphone/pjsip/src/pjlib-util/src/pjlib-util/xml.c:223-245 | each attribute is checked and written |
| `XmlPrinter.PrintNode` | iphone/pjsip/src/pjlib-util/src/pjlib-util/xml.c:201-307 | writes the text of the node, or -1 exactly when a size check fails; asks for the stated size, and for more only as far as the run writes |
| `XmlPrinter.PrintChildren` | iphone/pjsip/src/pjlib-util/src/pjlib-util/xml.c:262-277 | every child on a line of its own |
| `XmlPrinter.PrintDocument` | iphone/pjsip/src/pjlib-util/src/pjlib-util/xml.c:309-329 | the text with a newline unless the buffer is exactly full; with a prolog a tree that does not fit is reported as the prolog alone |
| `XmlPrinter.FailureReportedExactly` | iphone/pjsip/src/pjlib-util/src/pjlib-util/xml.c:309-329 | with a prolog a failure is reported exactly when the prolog itself does not fit, without one exactly when the tree does not |
| `XmlPrinter.PrologAlone` | iphone/pjsip/src/pjlib-util/src/pjlib-util/xml.c:309-329 | a document of 44 characters for a buffer of 44: the prolog alone is returned |
| `JsonRoundTrip.UnescapeEscaped` | iphone/pjsip/src/pjlib-util/src/pjlib-util/json.c:129-199 | for every byte string, unescaping the escaped string returns it |
| `JsonRoundTrip.CloseEscaped` | iphone/pjsip/src/pjlib-util/src/pjlib-util/json.c:135-139 | the scan for the closing quote stops exactly behind the escaped string |
| `JsonRoundTrip.QuotedRead` | iphone/pjsip/src/pjlib-util/src/pjlib-util/json.c:129-199 | every byte string written in quotes is read back |
| `JsonRoundTrip.BodyRead` | iphone/pjsip/src/pjlib-util/src/pjlib-util/json.c:201-290 | a written element is read back |
| `JsonRoundTrip.RoundTrip` | iphone/pjsip/src/pjlib-util/src/pjlib-util/json.c:481-602 | writing a valid tree rooted at an array or object and parsing the text gives the same tree |
| `JsonExact.EscapedIsSame` | iphone/pjsip/src/pjlib-util/src/pjlib-util/json.c:417-472 | a string is written as itself exactly when nothing in it needs escaping |
| `JsonExact.UnnamedStringSurvives` | iphone/pjsip/src/pjlib-util/src/pjlib-util/json.c:211-234 | whatever its bytes, a string without a name, before a comma, a closing bracket or the end, is read back as itself exactly when it is not empty, needs no escaping and does not start with a space |
| `JsonExact.NameSurvives` | iphone/pjsip/src/pjlib-util/src/pjlib-util/json.c:211-228 | a name is read back as itself under exactly the same condition |
| `JsonExact.LastWord` | iphone/pjsip/src/pjlib-util/src/pjlib-util/json.c:260-272 | of the words at the end of a text only `false` is recognised |
| `JsonExact.RoundTripExactly` | iphone/pjsip/src/pjlib-util/src/pjlib-util/json.c:481-602 | for every tree: writing and parsing gives it back if and only if only children of objects have names, all names and all strings without one survive, and the root is not the word null or true |
| `JsonExact.StringHasNoName` | iphone/pjsip/src/pjlib-util/src/pjlib-util/json.c:211-228 | a string among other elements is never read back as itself under a name, whatever quotes and colons it holds |
| `JsonParser.UnescapeToken` | iphone/pjsip/src/pjlib-util/src/pjlib-util/json.c:146-199 | the loop unescapes the token or fails |
| `JsonParser.ParseQuotedString` | iphone/pjsip/src/pjlib-util/src/pjlib-util/json.c:129-199 | the string between the quotes, with or without escapes |
| `JsonParser.ParseElem` | iphone/pjsip/src/pjlib-util/src/pjlib-util/json.c:201-290 | the element at the position, for every text without numbers |
| `JsonParser.ParseChildren` | iphone/pjsip/src/pjlib-util/src/pjlib-util/json.c:101-126 | the children up to the closing bracket, with any number of commas between them |
| `JsonParser.ParseDocument` | iphone/pjsip/src/pjlib-util/src/pjlib-util/json.c:298-342 | the tree of the text, or nothing |
| `JsonLayout.SpellingIsUnescaped` | iphone/pjsip/src/pjlib-util/src/pjlib-util/json.c:146-199 | a string whose characters stand as they are, behind a backslash or with their code is unescaped as RFC 4627 says |
| `JsonLayout.EscapeRefused` | iphone/pjsip/src/pjlib-util/src/pjlib-util/json.c:146-199 | a backslash before any other letter or at the end, and a code cut short, are refused wherever they stand |
| `JsonLayout.QuotedIsRead` | iphone/pjsip/src/pjlib-util/src/pjlib-util/json.c:129-199 | and so it is read between its quotes |
| `JsonLayout.PartsRead` | iphone/pjsip/src/pjlib-util/src/pjlib-util/json.c:101-126 | children with any number of commas and blanks around them are read up to the bracket |
| `JsonLayout.ItemRead` | iphone/pjsip/src/pjlib-util/src/pjlib-util/json.c:201-290 | an element in any layout is read as it is meant |
| `JsonLayout.LaidOutRead` | iphone/pjsip/src/pjlib-util/src/pjlib-util/json.c:298-342 | a text laid out in any way gives its tree, whatever follows, unless it ends with the word true or null and nothing follows; then it is refused |
| `JsonPrinted.SpellingLaid` | iphone/pjsip/src/pjlib-util/src/pjlib-util/json.c:421-472 | how each of the 256 bytes is written |
| `JsonPrinted.WrittenIsLaidOut` | iphone/pjsip/src/pjlib-util/src/pjlib-util/json.c:481-602 | what is written for a valid tree is one of these layouts: three spaces for each level, values in a column behind names of less than twenty characters, a line for each element when the first has a name; it is read back as an instance |
| `JsonWriter.BufWriter.Write` | iphone/pjsip/src/pjlib-util/src/pjlib-util/json.c:350-363 | appends a piece exactly when it leaves two bytes of the buffer |
| `JsonWriter.FillChunk` | iphone/pjsip/src/pjlib-util/src/pjlib-util/json.c:421-472 | takes at least one character, and what it holds with the rest escaped is the string escaped |
| `JsonWriter.WriteEscaped` | iphone/pjsip/src/pjlib-util/src/pjlib-util/json.c:407-479 | the 64-byte chunks put together are the string escaped byte by byte |
| `JsonWriter.WriteChildren` | iphone/pjsip/src/pjlib-util/src/pjlib-util/json.c:481-533 | the children in brackets, on one line or on a line each |
| `JsonWriter.WriteElem` | iphone/pjsip/src/pjlib-util/src/pjlib-util/json.c:535-602 | the text of the element, exactly when it fits |
| `JsonWriter.IndentFitsExactly` | iphone/pjsip/src/pjlib-util/src/pjlib-util/json.c:481-533 | the indentation stays within its buffer exactly up to 33 levels of children on lines of their own |
| `JsonWriter.NestedFits` | iphone/pjsip/src/pjlib-util/src/pjlib-util/json.c:481-533 | objects nested in objects with a named member each: 33 levels fit, 34 do not |
| `JsonWriter.WriteDocument` | iphone/pjsip/src/pjlib-util/src/pjlib-util/json.c:365-383 | succeeds exactly when the text leaves two bytes of the buffer, and then writes it with a zero byte |
| `Telnet.QuietMeansAgreed` | iphone/pjsip/src/pjlib-util/src/pjlib-util/cli_telnet.c:479-637 | two endpoints on FIFO channels, any requests from any state, permissions changed at any time: when both channels are empty neither waits, and each side of every option is enabled exactly when the other end believes so |
| `Telnet.AtMostTwoMessagesPerRequest` | iphone/pjsip/src/pjlib-util/src/pjlib-util/cli_telnet.c:479-637 | when no request is repeated while its answer is awaited, at most two messages are sent per request |
| `Telnet.RepeatedRequestsCanPingPong` | iphone/pjsip/src/pjlib-util/src/pjlib-util/cli_telnet.c:497-499 | without that discipline four requests can cause any number of messages |
| `Telnet.RunKeepsConsistent` | iphone/pjsip/src/pjlib-util/src/pjlib-util/cli_telnet.c:479-637 | the relation between the states and the messages under way holds after any run |
| `TelnetRules.RefusalOfDisabledIgnored` | iphone/pjsip/src/pjlib-util/src/pjlib-util/cli_telnet.c:598-600 | DONT or WONT for what is disabled changes nothing and is not answered |
| `TelnetRules.OfferOfEnabledIgnored` | iphone/pjsip/src/pjlib-util/src/pjlib-util/cli_telnet.c:532-573 | WILL or DO for what is enabled neither |
| `TelnetRules.NoNeedlessAnswer` | iphone/pjsip/src/pjlib-util/src/pjlib-util/cli_telnet.c:532-617 | the rule of RFC 854: a command that changes nothing is not answered, except that the offer of a disabled option that is not allowed is refused once |
| `TelnetRules.OfferAnswered` | iphone/pjsip/src/pjlib-util/src/pjlib-util/cli_telnet.c:532-573 | the offer of a disabled option is agreed to exactly when it is allowed, and answered once |
| `TelnetRules.RefusalAccepted` | iphone/pjsip/src/pjlib-util/src/pjlib-util/cli_telnet.c:580-617 | an option that is enabled is given up at once, and that is confirmed |
| `TelnetRules.OnlyItsState` | iphone/pjsip/src/pjlib-util/src/pjlib-util/cli_telnet.c:532-617 | a command changes nothing but the one side of the one option it is about |
| `TelnetRules.RequestAsks` | iphone/pjsip/src/pjlib-util/src/pjlib-util/cli_telnet.c:479-513 | a request is WILL for one's own side and DO for the other's, and is sent for a disabled option |
| `TelnetRules.RequestFollowsExactly` | iphone/pjsip/src/pjlib-util/src/pjlib-util/cli_telnet.c:479-513 | requests follow the method of section 7 of RFC 1143 if and only if none is waiting for its answer or queued |
| `TelnetRules.ReceiptFollowsExactly` | iphone/pjsip/src/pjlib-util/src/pjlib-util/cli_telnet.c:532-617 | receipts follow it in all cases but two, which are given |
| `TelnetRules.ReceiveFollows` | iphone/pjsip/src/pjlib-util/src/pjlib-util/cli_telnet.c:532-617 | and so does every command received outside these two cases |
| `Telnet.Session.SendEnableOption` | iphone/pjsip/src/pjlib-util/src/pjlib-util/cli_telnet.c:479-513 | the state change and the message of a request |
| `Telnet.Session.ReceiveEnableOption` | iphone/pjsip/src/pjlib-util/src/pjlib-util/cli_telnet.c:532-573 | the state change and the answer to WILL or DO |
| `Telnet.Session.ReceiveDisableOption` | iphone/pjsip/src/pjlib-util/src/pjlib-util/cli_telnet.c:580-617 | the state change and the answer to WONT or DONT |
| `Getopt.RotationRotates` | iphone/pjsip/src/pjlib-util/src/pjlib-util/getopt.c:201-256 | the rotation puts the last segment first, each segment in its order, and changes nothing outside |
| `Getopt.SwapSegments` | iphone/pjsip/src/pjlib-util/src/pjlib-util/getopt.c:223-229 | two segments are swapped in place |
| `Getopt.Rotate` | iphone/pjsip/src/pjlib-util/src/pjlib-util/getopt.c:214-250 | the block-swap loop ends and is exactly that rotation |
| `Getopt.SplitIsPermutation` | iphone/pjsip/src/pjlib-util/src/pjlib-util/getopt.c:374-449 | dividing the arguments into options and others loses and invents nothing |
| `Getopt.Scanner.Exchange` | iphone/pjsip/src/pjlib-util/src/pjlib-util/getopt.c:201-256 | the rotation of argv, and the new place of the non-options |
| `Getopt.Scanner.Advance` | iphone/pjsip/src/pjlib-util/src/pjlib-util/getopt.c:374-449 | reports the end exactly when no option is left; else stands at the next option with nothing lost |
| `Getopt.Scanner.ReadOption` | iphone/pjsip/src/pjlib-util/src/pjlib-util/getopt.c:566-729 | reports the next option with its argument |
| `Getopt.Scanner.Getopt` | iphone/pjsip/src/pjlib-util/src/pjlib-util/getopt.c:353-730 | one call reports the next option, or -1 exactly when there is none and argv is sorted |
| `Getopt.ScanArguments` | iphone/pjsip/src/pjlib-util/src/pjlib-util/getopt.c:374-449 | calls until -1 report exactly the options in order, leave argv a permutation with options and their arguments first and then the others, each in original order, and pj_optind at the first non-option |
| `GetoptLayout.Declared` | iphone/pjsip/src/pjlib-util/src/pjlib-util/getopt.c:566-580 | an option with no colon behind it in the option string takes no argument, with one it requires one, with two it takes one in its own element |
| `GetoptLayout.NotDeclared` | iphone/pjsip/src/pjlib-util/src/pjlib-util/getopt.c:566-580 | a character is unknown exactly when it is a colon or not in the option string |
| `GetoptLayout.ClusterRead` | iphone/pjsip/src/pjlib-util/src/pjlib-util/getopt.c:566-729 | options that share an element are found one after the other |
| `GetoptLayout.LineRead` | iphone/pjsip/src/pjlib-util/src/pjlib-util/getopt.c:353-730 | on every command line, whichever way options and arguments are written, exactly the options meant are found, with their arguments, and the operands are told from them |
| `Md5.AddCounts` | iphone/pjsip/src/pjlib-util/src/pjlib-util/md5.c:78-83 | the two 32-bit counters with carry hold eight times the byte count modulo 2^64 |
| `Md5.FoldAppend` | iphone/pjsip/src/pjlib-util/src/pjlib-util/md5.c:105-111 | folding the transform over blocks is folding over the parts |
| `Md5.Context.Update` | iphone/pjsip/src/pjlib-util/src/pjlib-util/md5.c:73-116 | the context stands for the message with the data appended |
| `Md5.Context.Final` | iphone/pjsip/src/pjlib-util/src/pjlib-util/md5.c:122-161 | the digest of the message: the fold of the transform over the padded message |
| `Md5.PaddingFits` | iphone/pjsip/src/pjlib-util/src/pjlib-util/md5.c:135-150 | the two ways of padding give the length the standard asks for |
| `Md5.InitialBytes` | iphone/pjsip/src/pjlib-util/src/pjlib-util/md5.c:58-68 | the first state, byte by byte |
| `Md5.PaddingLaw` | iphone/pjsip/src/pjlib-util/src/pjlib-util/md5.c:122-153 | the message is followed by a byte of 128, as few zeros as bring the length to eight less than a multiple of 64, and its length |
| `Md5.LengthLaw` | iphone/pjsip/src/pjlib-util/src/pjlib-util/md5.c:152-154 | which is its number of bits modulo 2^64, the low-order word first |
| `Md5.WordBytes` | iphone/pjsip/src/pjlib-util/src/pjlib-util/md5.c:152-158 | and in each word the low-order byte first |
| `Md5.DigestOfPieces` | iphone/pjsip/src/pjlib-util/src/pjlib-util/md5.c:58-161 | any sequence of update calls gives the digest of the whole |
| `Crc32.TableIsEntry` | iphone/pjsip/src/pjlib-util/src/pjlib-util/crc32.c:27-80 | every entry of the table is its index shifted through the polynomial eight times |
| `Crc32.WordStep` | iphone/pjsip/src/pjlib-util/src/pjlib-util/crc32.c:166-171 | four table steps on a word are four byte steps |
| `Crc32.TableContext.Update` | iphone/pjsip/src/pjlib-util/src/pjlib-util/crc32.c:156-183 | alignment prefix, word loop and tail compute the checksum of the data, for every alignment |
| `Crc32.BitContext.Update` | iphone/pjsip/src/pjlib-util/src/pjlib-util/crc32.c:199-223 | the bit-by-bit loop computes it |
| `Crc32.UpdateBoth` | iphone/pjsip/src/pjlib-util/src/pjlib-util/crc32.c:156-223 | both contexts agree after every call, for every split and alignment, and end with the checksum of the whole |
| `Crc32.Calculate` | iphone/pjsip/src/pjlib-util/src/pjlib-util/crc32.c:234-242 | the checksum in one call |
| `Crc32.CheckValue` | iphone/pjsip/src/pjlib-util/src/pjlib-util/crc32.c:234-242 | the checksum of the characters 1 to 9 is the check value of this polynomial |
| `SrvResolver.ChoiceByWeight` | iphone/pjsip/src/pjlib-util/src/pjlib-util/srv_resolver.c:275-288 | server k of a group is drawn exactly when the random number falls into its own stretch of the running sums, and some server is always drawn |
| `SrvResolver.DrawnInProportion` | iphone/pjsip/src/pjlib-util/src/pjlib-util/srv_resolver.c:262-300 | of the numbers from zero to the total weight of the servers of one priority that are left, exactly as many draw a server as its weight says, and one more draws the one in front |
| `SrvResolver.DrawnKeepsOrder` | iphone/pjsip/src/pjlib-util/src/pjlib-util/srv_resolver.c:262-308 | the second pass permutes the servers and keeps the order of priorities |
| `SrvResolver.DrawnAt` | iphone/pjsip/src/pjlib-util/src/pjlib-util/srv_resolver.c:262-308 | each position gets the server drawn from what was left of its priority |
| `SrvResolver.SrvQuery.SaveRecords` | iphone/pjsip/src/pjlib-util/src/pjlib-util/srv_resolver.c:204-236 | the acceptable SRV records, up to the size of the array |
| `SrvResolver.AcceptedExactly` | iphone/pjsip/src/pjlib-util/src/pjlib-util/srv_resolver.c:204-236 | exactly the records of type SRV whose target has at most 128 characters are taken |
| `SrvResolver.TakenExactly` | iphone/pjsip/src/pjlib-util/src/pjlib-util/srv_resolver.c:204-236 | and of those the first eight |
| `SrvResolver.SrvQuery.SortByPriority` | iphone/pjsip/src/pjlib-util/src/pjlib-util/srv_resolver.c:247-254 | a permutation in ascending priority |
| `SrvResolver.SrvQuery.RunningSums` | iphone/pjsip/src/pjlib-util/src/pjlib-util/srv_resolver.c:266-273 | the running sums of the group |
| `SrvResolver.SrvQuery.FindReaching` | iphone/pjsip/src/pjlib-util/src/pjlib-util/srv_resolver.c:286-292 | the first server whose running sum reaches the number; there is one |
| `SrvResolver.SrvQuery.BuildServerEntries` | iphone/pjsip/src/pjlib-util/src/pjlib-util/srv_resolver.c:204-315 | after both passes the array is a permutation of the accepted records, in ascending priority, drawn by weight |
| `Base64.RoundTrip` | iphone/pjsip/src/pjlib-util/src/pjlib-util/base64.c:81-168 | decoding the encoding of any byte string returns it |
| `Base64.CharIsInAlphabet` | iphone/pjsip/src/pjlib-util/src/pjlib-util/base64.c:27-36 | the sixty-four characters |
| `Base64.GroupIsNumber` | iphone/pjsip/src/pjlib-util/src/pjlib-util/base64.c:58-79 | three bytes, as a number of 24 bits, are written in its four digits to the base of 64 |
| `Base64.LastGroup` | iphone/pjsip/src/pjlib-util/src/pjlib-util/base64.c:58-79 | a last group of one or two bytes is that of the bytes and zeros, with equals signs in the place of what holds none of their bits |
| `Base64.Examples` | iphone/pjsip/src/pjlib-util/src/pjlib-util/base64.c:81-121 | three of the examples of RFC 4648 |
| `Base64.EncodedFits` | iphone/pjsip/src/pjlib-util/src/pjlib-util/base64.c:89-91 | the encoded length, four for every three bytes begun, never exceeds the documented bound |
| `Base64.JunkIgnored` | iphone/pjsip/src/pjlib-util/src/pjlib-util/base64.c:140-146 | characters outside the alphabet anywhere before the last alphabet character change nothing |
| `Base64.TrailingJunk` | iphone/pjsip/src/pjlib-util/src/pjlib-util/base64.c:140-168 | exactly when characters after it change the result |
| `Base64.Encode` | iphone/pjsip/src/pjlib-util/src/pjlib-util/base64.c:81-121 | writes the encoding, or nothing when the room is below the bound |
| `Base64.Decode` | iphone/pjsip/src/pjlib-util/src/pjlib-util/base64.c:124-168 | writes the decoded bytes, or nothing when the room is below the bound |
| `Base64.AssertionHoldsExactly` | iphone/pjsip/src/pjlib-util/src/pjlib-util/base64.c:136-164 | the assertion after decoding holds for every room that the check accepts if and only if enough characters are skipped to make the bytes fewer |
| `Base64.EncodingFillsRoom` | iphone/pjsip/src/pjlib-util/src/pjlib-util/base64.c:136-164 | the bytes of every encoding fill the smallest room that the check accepts |
| `StringEscape.EscapeInto` | iphone/pjsip/src/pjlib-util/src/pjlib-util/string.c:74-101 | succeeds exactly when the whole escaped text fits, and writes nothing beyond the limit |
| `StringEscape.CopyUnescaped` | iphone/pjsip/src/pjlib-util/src/pjlib-util/string.c:53-72 | the lax reading of the text, also in place |
| `StringEscape.Unescape` | iphone/pjsip/src/pjlib-util/src/pjlib-util/string.c:25-51 | the strict reading, in the same memory when there is no percent sign |
| `StringEscape.RoundTrip` | iphone/pjsip/src/pjlib-util/src/pjlib-util/string.c:25-101 | with the percent sign reserved, both readings undo the escaping of any text |
| `StringEscape.StrictRecoversExactly` | iphone/pjsip/src/pjlib-util/src/pjlib-util/string.c:25-51 | pj_str_unescape undoes the escaping of every text if and only if the percent sign is reserved or all hexadecimal digits are |
| `StringEscape.LaxRecoversExactly` | iphone/pjsip/src/pjlib-util/src/pjlib-util/string.c:53-72 | pj_strcpy_unescape does if and only if the percent sign is reserved |
| `StringEscape.ReadingsAgree` | iphone/pjsip/src/pjlib-util/src/pjlib-util/string.c:25-72 | both readings of a text agree if and only if every escape that the lax one finds has hexadecimal digits |
| `StringEscape.LaxIsShorter` | iphone/pjsip/src/pjlib-util/src/pjlib-util/string.c:25-72 | the lax reading is never longer |
| `StringEscape.ProperEscapes` | iphone/pjsip/src/pjlib-util/src/pjlib-util/string.c:25-72 | for that it is enough that every percent sign with two characters after it starts a hexadecimal escape |
| `StringEscape.CodeIsRead` | iphone/pjsip/src/pjlib-util/src/pjlib-util/string.c:25-72 | a percent sign and two hexadecimal digits, small or capital, stand for the character with that code |
| `StringEscape.PlainIsRead` | iphone/pjsip/src/pjlib-util/src/pjlib-util/string.c:25-72 | any other character stands for itself |
| `StringEscape.PercentStands` | iphone/pjsip/src/pjlib-util/src/pjlib-util/string.c:25-72 | and so does a percent sign with fewer than two characters behind it, or, in the strict reading, without two hexadecimal digits |
| `StringEscape.CodeIsWritten` | iphone/pjsip/src/pjlib-util/src/pjlib-util/string.c:74-101 | what is escaped is written with two small digits |
| `Hex.HexRoundTrip` | iphone/pjsip/src/pjlib/include/pj/ctype.h:149-168 | the two digits written for a byte are hexadecimal and are read back as it |
| `Hex.DigitTable` | iphone/pjsip/src/pjlib/include/pj/ctype.h:141-168 | the sixteen digits as they are written; capital letters are read as well |

## Left out

- Resolver.DnsResolver.StartQuery: does not select name servers or update their states (resolver.c:1033-1187); how transmitting goes is a parameter.
- Resolver.NextKeeps: the settings stay as they are during a run; pj_dns_resolver_set_settings is not a step.
- ResolverTable.QueryTable.TransmitQuery: a timer is one flag, as if kept outside the node; a node that is cleared while its timer is still queued keeps that flag, and the inside of the timer heap is not modelled.
- ResolverTable.QueryTable.OnTimeout: the node of an elapsed timer is known; the source reads it from the timer entry before it gets the mutex (resolver.c:1312), and alloc_qnode clears that entry when the node is used again.
- ResolverCache.ResponseCache.Store: pools are not modelled; an entry used again is the same entry.
- DnsParser.GetName: its own error branches are not modelled, since it is called only after get_name_len has succeeded at the same place, and then none of them is taken.
- DnsServer.PrintPacket: asks for records whose data belong to their type, which the union of the source cannot tell apart.
- DnsRoundTrip.PacketRead: the rdlength field of parsed records is not part of the packet; `DnsWire.RecordIsRead` says what it is used for.
- XmlExact.RoundTripExactly: trees with names that are empty or hold delimiters are not characterised.
- XmlParser.ParseNode: comments and CDATA sections are read as errors; the printer never produces them.
- JsonParser.ParseElem: numbers are read as errors, and the writer has none, since they depend on printing and parsing floating point elsewhere.
- JsonParser.ParseQuotedString: the position reported for an invalid escape is not modelled.
- JsonWriter.WriteElem: asks that no line be indented beyond the 100 bytes of the indentation buffer, which 34 levels of named children exceed; the source does not check it and reads beyond the buffer, where the text of the model has spaces.
- JsonWriter.BufWriter.Write: other writer callbacks of pj_json_writef are not modelled.
- Scanner.TextScanner.GetUntil: the sets of characters are sets, not the bit tables of scanner_cis_*.c; other scanner functions are not modelled.
- Getopt.ScanArguments: long options, the `W;` option, the orderings `+` and `-`, and an application that moves pj_optind back during a scan are not modelled.
- Md5.DigestOfPieces: the block transform is an arbitrary function.
- Crc32.UpdateBoth: the table of the big-endian configuration is not modelled.
- SrvResolver.SrvQuery.BuildServerEntries: what follows the ordering, the use of additional records, is not modelled; names are kept as values, without the pointer into their own buffer.
- Base64.Decode: the debug assertion on the output length is not a step of the method; `AssertionHoldsExactly` says when it holds.
- StringEscape.EscapeInto: pj_strncpy_escape, which only wraps it, is not modelled.
- Telnet.Session.SendEnableOption: the bytes of a message, sub-negotiation and the terminal are not modelled; a channel carries whole commands.
- Lengths and positions are unbounded integers, except the 16- and 32-bit fields and counters that are written out as such.
- Sockets, ioqueue, threads, logging, pools, http_client.c, pcap.c, cli_console.c, stun_simple_client.c, SHA-1, HMAC and the iPhone, Titanium and build files are not part of this model.
