# urllib3, verified

A Dafny model of the parts of urllib3 that carry its hardest promises, with proofs of those promises. Sockets, TLS, zlib,
the JavaScript runtime and the server are abstract: the proofs hold for whatever they do within a stated contract.

| file | models |
|---|---|
| `Bytes.dfy`, `Text.dfy` | byte strings, joining pieces, ASCII letter case |
| `Codec.dfy`, `MultiDecoder.dfy` | the contract of a content decoder; chains of decoders |
| `Zlib.dfy`, `Deflate.dfy`, `Gzip.dfy`, `GzipCalls.dfy` | the decompression object as an abstract machine; the deflate and gzip decoders on top of it; series of gzip calls |
| `Decoders.dfy` | deflate, gzip and chains as decoders of a response |
| `ByteQueue.dfy`, `Response.dfy` | the queue of decoded bytes; `read` and `stream` of a response |
| `Chunked.dfy`, `LineIter.dfy` | chunked framing, sender and reader; line iteration |
| `ConnectionPool.dfy` | connection slots under any interleaving of requests and responses |
| `Retry.dfy` | retry counters |
| `HeaderDict.dfy`, `PoolManager.dfy`, `Spending.dfy`, `Attempts.dfy` | header fields; retries within a pool and redirects across pools; how many attempts they come to |
| `Probe.dfy` | the HTTP/2 probe cache under any interleaving of threads |
| `ReadStream.dfy` | the shared buffer between the Python reader and the JavaScript worker |
| `UrlEncode.dfy`, `UrlPath.dfy`, `Url.dfy` | percent-encoding, dot segments, parsing and printing URLs |
| `Recent.dfy` | the bounded, recency-ordered container of pools |

Code that changes things step by step is modelled by classes and methods with loops, proved against functions; what the
library promises is proved about those functions, or stated as the methods' postconditions. Concurrent parts (the
connection pool, the probe cache, the shared buffer) are state machines of atomic steps. The methods of the pool and the
probe cache are proved to be runs of those steps; the two sides of the shared buffer are proved on real buffers as well,
one waiting for the other. `dafny verify dfyconfig.toml` checks everything.

## Where a promise fails, and exactly when

- Gzip with a limit: `GzipDecoder.decompress` may stop at a filled limit before it replaces a finished decompressor
  (`src/urllib3/response.py:177`), which then still holds the bytes behind its member; the next call with a limit other
  than zero gives them twice. `Gzip.GzipDecoder.Decompress` says of every call, in terms of the bytes given and the limit,
  whether it leaves bytes held. `GzipCalls.UnheldIsRight`: while no such call finds bytes held, the output is right, and
  by `GzipCalls.OneMember` none does with a body of one member; a chain or a response that reads through gzip with limits
  has the decoder contract only so far.
  `GzipCalls.DecodeWhole`: over whole members it is right exactly when what is found held contains nothing, and too long by
  just that content otherwise. `GzipCalls.SecondComesTwice` and `GzipCalls.NeverEnds` are the failures, for every format
  and any two members. With cuts inside members a repeated beginning means what the format makes of it, and
  `GzipCalls.GarbageComesTwice` shows that it may be invisible.
- Streaming without an amt: `stream(None)` never ends over a file object that stays open after an unlimited read.
  `Response.HTTPResponse.Stream` says so, and that it ends in every other case.
- Dot segments: ".." above the root removes the root's empty segment from the list, so an empty first segment is then
  taken for the root. `UrlPath.AgreesWithRfc` gives the exact condition.
- The probe cache: a waiter that finds a known value returns with the key's lock still held
  (`src/urllib3/http2/probe.py:36-49`). `Probe.WaitsForever` says exactly who then waits forever, and
  by `Probe.AtMostOneMore` at most one waiter is let through.
- The shared buffer: a fetched chunk of no bytes reads as the end of the body. `ReadStream.EveryRun` and
  `ReadStream.CompleteIff` say what is delivered then, and `ReadStream.EndsEarly` is such a run.
- Retries: the documentation of `total` speaks of a total number of retries, but `PoolManager.urlopen` counts redirects
  against the retries the caller gave, not against those the pool left (`src/urllib3/poolmanager.py:475`).
  `Attempts.LinearIff` gives the exact condition for any retries that bound the attempts, `Attempts.TotalIsLinearIff` for a number: no redirects,
  or a total of zero. The bound is quadratic otherwise, and `Attempts.BoundReached` shows that it is reached.
- URLs: an authority such as ":" or "@" gives a host that is empty and not None, which printing cannot show.
  `Urls.RoundTrip` states that this is the only exception for http and https, `Urls.ParsesToEmptyAuthority` is one.

## Model

| member | source | states |
|---|---|---|
| `Codec.RunConserves` | src/urllib3/response.py:57-66 | Over any run of decompress calls on a decoder that keeps its contract, for any cuts of the input and any limits, every call gives the one answer the contract allows, and the outputs joined extend what had come out before and are a prefix of the decode of everything fed: nothing is lost, repeated or reordered |
| `Codec.AnswersJoin` | src/urllib3/response.py:57-66 | For any decode that only grows: the answers the contract asks of a series of calls join to the decode of everything fed, complete after a call without a limit |
| `Codec.KeepersAreDecoders` | src/urllib3/response.py:57-66 | Whatever keeps the contract over a series of calls, for a monotone decode, returns and flags at every call what one of the abstract decoders does whose tail flag may depend on all the calls before: what is proved of reading through any of those holds for it |
| `MultiDecoder.MultiDecoder.Decompress` | src/urllib3/response.py:328-356 | A chain of decoders that each keep the contract keeps it for the composed decode: exactly the next bytes a positive limit allows (no limit otherwise), the tail flag raised while output is pending, and a short answer means no link has output pending |
| `MultiDecoder.MultiDecoder.DecompressAll` | src/urllib3/response.py:328-356 | Any series of calls on a chain gives the answers asked of one decoder for the composed decode |
| `MultiDecoder.ChainAnswersJoin` | src/urllib3/response.py:328-356 | Those answers join to the composed decode of everything fed, complete after a call without a limit |
| `MultiDecoder.MultiDecoder.DecompressUpTo` | src/urllib3/response.py:334-352 | The loop ends, by the bound on what all links can still put out, with the limit filled or with nothing pending in any link |
| `MultiDecoder.FlushedChain` | src/urllib3/response.py:328-356 | When no link has output pending, what has come out is the composed decode of everything fed |
| `MultiDecoder.EmittedWithinCapacity` | src/urllib3/response.py:334-352 | All links together never emit more than a bound fixed by the input alone, which is why the loop ends |
| `ByteQueue.BytesQueueBuffer.Put` | src/urllib3/response.py:398-400 | The queue is the flat byte string with the piece added at its end; the size field is its length |
| `ByteQueue.BytesQueueBuffer.Get` | src/urllib3/response.py:402-435 | The first n bytes of the flat string, or all of them, the rest left in order; an error exactly for a non-zero count on a queue without pieces or for a negative count, and then nothing changes |
| `ByteQueue.BytesQueueBuffer.Gather` | src/urllib3/response.py:414-435 | The loop over pieces, the last one cut, loses no byte and stops at n bytes or with an empty queue |
| `ByteQueue.BytesQueueBuffer.GetAll` | src/urllib3/response.py:437-451 | Everything queued, in order; the queue is empty afterwards |
| `Deflate.DeflateDecoder.Decompress` | src/urllib3/response.py:76-122 | For any cut of the body and any limits, zero included: if zlib accepts the body, or rejects it before any output and raw deflate accepts it, every call keeps the decoder contract for the zlib decode, or for the raw decode of everything fed from the first byte, and nothing is refused |
| `Deflate.DeflateDecoder.DecompressAll` | src/urllib3/response.py:76-122 | Any series of calls on such a body gives the answers the contract asks for, none refused |
| `Deflate.DeflateAnswersJoin` | src/urllib3/response.py:76-122 | Those answers join to the decode of the body, complete after a call without a limit |
| `Deflate.SettledCall` | src/urllib3/response.py:94-116 | Once the format is settled, or with everything fed so far replayed to a new raw decompressor, a call continues the right decode from the right byte |
| `Deflate.DeflatedExtends` | src/urllib3/response.py:76-122 | On such a body, feeding more only adds to the decode: a rejection can no longer overturn what came out |
| `Gzip.GzipDecoder.Decompress` | src/urllib3/response.py:140-192 | Any stream, any cut, any limits: until a member is rejected each call hands over exactly what its limit lets through of what the members in the bytes given to the format give; it raises exactly when the first member is rejected, and then hands over nothing; after a rejection everything is swallowed. What has been given grows by the input, except that a call with a limit other than zero gives the bytes held behind a finished member once more. A call leaves bytes held exactly when it fills a positive limit and everything handed over so far is just what some whole members at the front of what was given contain, with more bytes behind them; it holds all that follows the first such place |
| `Gzip.GzipDecoder.SentIsGiven` | src/urllib3/response.py:140-192 | On any stream everything handed over so far is a prefix of what the members give, a rejected one up to its rejection |
| `Gzip.GivesExtend` | src/urllib3/response.py:159-188 | Feeding more of any stream only adds to what its members give |
| `Gzip.HeldIs` | src/urllib3/response.py:174-188 | After output the decompressor is at the end of a member with bytes behind it exactly when what was sent is the contents of whole members that are a proper prefix of what was given |
| `Gzip.GzipDecoder.Inflate` | src/urllib3/response.py:159-188 | The loop over members, ended by a filled limit, by the end of the input or by a rejected member, which is raised when it is the first and swallowed otherwise |
| `Gzip.SeriesDecodes` | src/urllib3/response.py:164-172 | A series of complete members followed by garbage that is refused without output decodes to the members' contents laid end to end |
| `Gzip.DecodeChunks` | src/urllib3/response.py:140-192 | Calls without a limit on any cut of such a stream put out the members' contents once and in order, and swallow everything from the first error on |
| `Gzip.MembersExtend` | src/urllib3/response.py:159-188 | Feeding more of a stream only adds to the contents decoded |
| `GzipCalls.DecodeCalls` | src/urllib3/response.py:140-192 | A series of calls on a new decoder returns what the account of given, sent and held bytes says, call by call, as long as no member in what is given, repetitions included, is rejected after it gave output |
| `GzipCalls.UnheldIsRight` | src/urllib3/response.py:140-192 | Any cuts, any limits, on a stream with no member rejected after it gave output: while no call with a limit other than zero finds bytes held, every call returns what the contract asks for the stream as it was fed, and the output is all of the contents after a call without a limit |
| `GzipCalls.DecodeUnheld` | src/urllib3/response.py:140-192 | The decoder itself, run over such a series, puts out those answers |
| `GzipCalls.OneMember` | src/urllib3/response.py:140-192 | As long as what is fed belongs to one complete member, no call finds bytes held, whatever the cuts and limits |
| `GzipCalls.DecodeMember` | src/urllib3/response.py:140-192 | So the decoder, fed one member or a part of it in any cuts with any limits, returns at every call what the contract asks, and all of its content in the end |
| `GzipCalls.RepeatedIsExtra` | src/urllib3/response.py:151-188 | When every call is given whole members: the contents of the bytes found held are repeated, at each call that finds some, and nothing else changes |
| `GzipCalls.DecodeWhole` | src/urllib3/response.py:140-192 | Whole members at every call, any limits, the last call without one: what the decoder puts out is longer than the contents by exactly the bytes repeated, and is right exactly when there are none |
| `GzipCalls.SecondComesTwice` | src/urllib3/response.py:151-188 | For every format and any two complete members, the first with content: the decoder, fed both with the limit filled by the first and then called without a limit, puts the contents of the second out twice |
| `GzipCalls.NeverEnds` | src/urllib3/response.py:151-188 | With limits filled at the end of each member the second member comes out at every further call, as often as the decoder is called, and the decoder always says that there is more |
| `GzipCalls.GarbageComesTwice` | src/urllib3/response.py:164-172 | Garbage refused without output hides the repetition: held and given twice, it changes nothing |
| `Zlib.InflateStep` | src/urllib3/response.py:94-97 | The assumed decompressor: with its tail passed back, a call hands over exactly what the limit allows of the decode and fails only on a stream the format rejects |
| `Decoders.DeflateCall` | src/urllib3/response.py:76-122 | On a sound body every call with a limit other than zero returns what a decoder known only by its contract returns, and leaves the same tail flag: the deflate decoder is one of those that chains and responses are proved for |
| `Decoders.DeflateCalls` | src/urllib3/response.py:76-122 | Any series of calls on a sound body returns what such a decoder returns |
| `Decoders.GzipCall` | src/urllib3/response.py:140-192 | So does the gzip decoder on a stream with no member rejected after it gave output, at every call with a limit other than zero that finds no bytes held |
| `Decoders.GzipMemberCall` | src/urllib3/response.py:140-192 | While what is fed belongs to one member, no such call finds bytes held, whatever the cuts and limits |
| `Decoders.ChainCall` | src/urllib3/response.py:328-356 | Every call of a chain with a limit other than zero returns what a decoder for the composed decode returns, and leaves the same tail flag, which for a chain depends on all the calls before |
| `Decoders.ChainCalls` | src/urllib3/response.py:328-356 | So does any series of such calls |
| `Decoders.ChainBody` | src/urllib3/response.py:622-666 | All that is ahead of a response with such a chain is the composed decode of its body |
| `Decoders.TwoEncodings` | src/urllib3/response.py:328-356 | With deflate and gzip, as in "Content-Encoding: deflate, gzip": the deflate decode of the members' contents, as far as the gzip link is called while it holds no bytes |
| `Decoders.DeflateBody` | src/urllib3/response.py:622-666 | All that reading a response with a sound deflate body yields is the decode of the body |
| `Decoders.GzipBody` | src/urllib3/response.py:622-666 | And with a gzip body the contents of its members, as far as no call finds bytes held (`GzipCalls.OneMember`: always with one member); otherwise members are repeated (`GzipCalls.DecodeWhole`) |
| `Response.HTTPResponse.Read` | src/urllib3/response.py:1063-1169 | For any short reads of the file object and any decoder that keeps the contract: exactly amt decoded bytes until the body runs out, everything without an amt, and the results joined are the decoded body; IncompleteRead exactly when more is asked for than is left of a body shorter or longer than promised, and then nothing is consumed |
| `Response.HTTPResponse.ReadEach` | src/urllib3/response.py:1063-1169 | Any series of reads cuts the decoded body up as the amounts say; a truncated body makes the first one fail that asks for more than is left, and nothing else does |
| `Response.HTTPResponse.Fill` | src/urllib3/response.py:1114-1167 | The reading loop ends with amt bytes queued or the body exhausted |
| `Response.HTTPResponse.ReadAll` | src/urllib3/response.py:1127-1136 | All the rest of the decoded body, the queue first |
| `Response.HTTPResponse.RawRead` | src/urllib3/response.py:1011-1061 | A non-empty part of what the file object has, nothing only at its end; IncompleteRead exactly there and exactly when the promised length is not used up; a read without an amt closes nothing by itself |
| `Response.HTTPResponse.DecodeAndPut` | src/urllib3/response.py:1147-1166 | Decoding moves bytes from what is ahead into the queue, never past the limit, and stops short of it only when nothing is pending |
| `Response.HTTPResponse.Stream` | src/urllib3/response.py:1260-1274 | Non-empty pieces of exactly amt bytes but for the last, which make up the decoded body; it fails only on a truncated body. The loop ends, after at most one turn more than there are bytes, when an amt is given or the file object closes itself on read(); otherwise it goes on through any number of turns, all empty after the first |
| `Response.DecodeAhead` | src/urllib3/response.py:622-666 | Decoding, with or without a flush, neither loses nor invents output: what came out followed by what is still ahead is what was ahead before |
| `Chunked.SendChunked` | src/urllib3/connection.py:538-555 | What is sent is one chunk for each non-empty block, its size in hexadecimal, and a last chunk |
| `Chunked.SizeRoundTrip` | src/urllib3/connection.py:548 | Every size line sent is read back as the length it stands for |
| `Chunked.ParseFramed` | src/urllib3/response.py:1342-1380 | Section 7.1 of RFC 9112: chunks with any extensions and any spelling of their sizes are read back as their data, up to and including the last chunk |
| `Chunked.SkipsTrailer` | src/urllib3/response.py:1456-1463 | A trailer section of any non-empty lines is skipped together with the empty line that ends it, and nothing more |
| `Chunked.FramingRoundTrip` | src/urllib3/connection.py:538-555 | What is sent for any blocks parses, whatever follows it, to the blocks laid end to end, and uses up exactly the bytes sent |
| `Chunked.ChunkedResponse.UpdateChunkLength` | src/urllib3/response.py:1342-1358 | Reads a size line unless a chunk is under way; fails only on a stream that has no chunk to give |
| `Chunked.ChunkedResponse.HandleChunk` | src/urllib3/response.py:1360-1380 | The next part of the current chunk, at most amt bytes, its line end with the last part; what the stream says is cut exactly there |
| `Chunked.ChunkedResponse.ReadChunked` | src/urllib3/response.py:1429-1467 | Fails exactly on a broken stream; otherwise yields non-empty pieces of at most amt bytes that join to the decoded body, and leaves the stream just behind the trailer section |
| `Chunked.SendAndReceive` | src/urllib3/response.py:1429-1467 | Sender and reader together: for any blocks, any amt and any bytes that follow, the reader yields the blocks joined and leaves exactly the bytes that follow |
| `LineIter.Iterate` | src/urllib3/response.py:1482-1497 | The lines of the whole body, however it was cut into chunks |
| `LineIter.LinesOfChunk` | src/urllib3/response.py:1485-1495 | A chunk yields its terminated parts, the first completing the open line, and leaves its last part open |
| `LineIter.LinesJoin` | src/urllib3/response.py:1482-1497 | The lines joined are the body |
| `LineIter.LinesAreLines` | src/urllib3/response.py:1482-1497 | Every line but the last ends with its only newline, and none is empty |
| `ConnectionPool.EveryRunConserves` | src/urllib3/connectionpool.py:764-864 | In every interleaving of requests, retries, failures, releases, closed responses and closing of the pool: no connection is owned twice, every connection ever made is owned or closed, FullPoolError never happens on a blocking pool, and while it is open idle slots, slots of requests in flight and slots of unreleased responses add up to maxsize |
| `ConnectionPool.StepKeepsOwners` | src/urllib3/connectionpool.py:256-335 | Every step hands a connection from one owner to at most one other, or closes it |
| `ConnectionPool.StepCounts` | src/urllib3/connectionpool.py:294-335 | Every step keeps the slot count and the queue within its size |
| `ConnectionPool.ReleaseKeepsOwners` | src/urllib3/response.py:790-795 | A response gives its connection back once: to the queue or to be closed |
| `ConnectionPool.ClosePoolKeeps` | src/urllib3/connectionpool.py:558-568 | Closing the pool closes every connection it queued and touches no other |
| `ConnectionPool.HTTPConnectionPool.GetConnection` | src/urllib3/connectionpool.py:256-292 | The slot put back last, with its connection or a new one; EmptyPoolError, ClosedPoolError, or a new connection beyond the queue exactly as the pool's mode says |
| `ConnectionPool.HTTPConnectionPool.PutConnection` | src/urllib3/connectionpool.py:294-335 | On top of the queue when there is room; otherwise closed, with FullPoolError exactly on a blocking pool |
| `ConnectionPool.HTTPConnectionPool.CloseAll` | src/urllib3/connectionpool.py:558-568 | The queue is gone and exactly its connections are closed |
| `ConnectionPool.HTTPConnectionPool.Exchange` | src/urllib3/connectionpool.py:765-847 | The try block is the steps of taking a slot and succeeding or failing with it |
| `ConnectionPool.HTTPConnectionPool.CleanUp` | src/urllib3/connectionpool.py:849-864 | The finally block is the steps of discarding after an unclean exit and passing the slot back |
| `ConnectionPool.HTTPConnectionPool.Urlopen` | src/urllib3/connectionpool.py:764-887 | The whole call, retries included, is a run of the system above: it never raises FullPoolError, leaves no slot behind but the one that goes with a response, and on a pool that can serve it returns a response exactly when some attempt is answered |
| `Retry.RunSpends` | src/urllib3/util/retry.py:452-547 | A run of increments goes through exactly when none of its errors is one to raise again and every counter covers the events of its class and total covers all of them; it then leaves each counter lower by exactly its events and the history longer by exactly the run |
| `Retry.OneSpent` | src/urllib3/util/retry.py:452-547 | One increment: counted, exhausted or raised again, each exactly when it should be |
| `Retry.RunStaysNonNegative` | src/urllib3/util/retry.py:433-450 | From counters that are not negative none ever becomes so |
| `Retry.RunBounded` | src/urllib3/util/retry.py:475-477 | With a number as total no more increments than that go through, whatever they are for |
| `Retry.BackoffDoubles` | src/urllib3/util/retry.py:309-326 | After a redirect, whatever came before it, and at the start of a call: the first error is retried at once; from the second one on each further error doubles the wait, up to the maximum |
| `Retry.IncrementBurns` | src/urllib3/util/retry.py:266-289 | An increment that goes through leaves every setting as it was and total lower by one |
| `HeaderDict.ExtendGets` | src/urllib3/_collections.py:341-371 | Adding lines one after another keeps, for every name in any letter case, all its values in order |
| `HeaderDict.CombineInvisible` | src/urllib3/_collections.py:306-339 | Combining a value with the last one or adding it as another line gives the same value on lookup |
| `HeaderDict.Rebuild` | src/urllib3/_collections.py:438-443 | A dictionary built from the items of another is the same dictionary |
| `HeaderDict.HTTPHeaderDict.AddValue` | src/urllib3/_collections.py:306-339 | Appends to the values of the name, or makes a new entry at the end |
| `HeaderDict.HTTPHeaderDict.ExtendLines` | src/urllib3/_collections.py:341-371 | Adds every line in order |
| `HeaderDict.SetItemGets` | src/urllib3/_collections.py:251-255 | Setting gives the name, in any letter case, just the new value, and leaves the values of every other name as they were |
| `HeaderDict.HTTPHeaderDict.SetValue` | src/urllib3/_collections.py:251-255 | After the call the name has just the new value, in any letter case; every other name has the values it had |
| `HeaderDict.HTTPHeaderDict.DiscardName` | src/urllib3/_collections.py:300-304 | Exactly the entry of the name is gone; the order of the others stays |
| `HeaderDict.HTTPHeaderDict.CopyFrom` | src/urllib3/_collections.py:428-431 | The copy has the same entries in the same order |
| `HeaderDict.HTTPHeaderDict.PrepareForMethodChange` | src/urllib3/_collections.py:399-415 | Exactly the seven content-specific fields are gone |
| `PoolManager.PoolFetch` | src/urllib3/connectionpool.py:724-970 | Whatever the server answers, one pool call makes at most total + 1 attempts, or without a total one more than the other counters add up to, and returns with no more retries than it had |
| `PoolManager.PoolRepeats` | src/urllib3/connectionpool.py:866-970 | Without redirects of its own a pool sends the same request again and again |
| `PoolManager.ChainBounded` | src/urllib3/poolmanager.py:436-505 | Whatever the server answers, one call with T retries makes at most (T+1)(T+2)/2 attempts over at most T+1 hops |
| `Attempts.SentWithin` | src/urllib3/poolmanager.py:436-505 | For any retries, given or not, that bound the attempts, by total or without one by all the other counters: no server makes one call take more than `MostAttempts` attempts, which the counters, the lists of statuses and methods and the redirect codes determine |
| `Attempts.ReachesMost` | src/urllib3/poolmanager.py:475-503 | And some server makes it take exactly as many |
| `Attempts.LinearIff` | src/urllib3/poolmanager.py:475-503 | So one call stays within total + 1 attempts against every server exactly when `MostAttempts` does (without a total: the sum of the counters plus one) |
| `Attempts.LinearIfNoRedirect` | src/urllib3/poolmanager.py:475-503 | Where connection errors are bounded by total alone: exactly when the manager cannot follow a redirect or no redirect code leaves the pool |
| `Attempts.TotalIsLinearIff` | src/urllib3/util/retry.py:70-77 | With total given as a number: exactly without redirects or with a total of zero |
| `Attempts.DefaultIsLinearIff` | src/urllib3/poolmanager.py:475-503 | Without retries given, on pools with nothing but a total: exactly without redirects or with a total of at most one |
| `Spending.WasteSteps` | src/urllib3/util/retry.py:452-547 | Every event a pool counts spends just one of the retries it can be made to spend |
| `Attempts.BoundReached` | src/urllib3/poolmanager.py:475-503 | For every T there is a server that makes one call take exactly (T+1)(T+2)/2 attempts |
| `PoolManager.ChainUnrolls` | src/urllib3/poolmanager.py:436-505 | Nothing is sent but the requests of the hops, each as often as its hop makes attempts |
| `PoolManager.HopsSend` | src/urllib3/poolmanager.py:465-505 | Every hop of every chain, whatever the retries (total=None included), sends exactly the caller's headers, less remove_headers_on_redirect from the first change of host on (even back at the first host) and less the content-specific fields after a 303, and GET without a body after a 303 (section 15.4 of RFC 9110) |
| `PoolManager.ChainSends` | src/urllib3/poolmanager.py:465-505 | In particular every hop of the calls that `Fetch` makes |
| `PoolManager.StripUnsafe` | src/urllib3/poolmanager.py:485-489 | The copy-and-pop loop removes exactly the unsafe fields, in any letter case |
| `PoolManager.RedirectedRequest` | src/urllib3/poolmanager.py:468-489 | The request a redirect leads to |
| `PoolManager.Client.PoolUrlopen` | src/urllib3/connectionpool.py:724-970 | The method rebinding its variables computes the attempts and result of PoolFetch |
| `PoolManager.Client.Urlopen` | src/urllib3/poolmanager.py:436-505 | The method computes the chain the lemmas above speak of |
| `Probe.OneProber` | src/urllib3/http2/probe.py:18-49 | For any number of threads, in every reachable state at most one thread probes an origin |
| `Probe.AnswersAgree` | src/urllib3/http2/probe.py:18-63 | An origin's value is written at most once, every answer other than None is that value, and neither the KeyError nor the ValueError is ever raised |
| `Probe.StepKeeps` | src/urllib3/http2/probe.py:18-63 | Every step of every thread keeps the locks, values and records in agreement |
| `Probe.RunKeeps` | src/urllib3/http2/probe.py:51-63 | A known value is never changed or reset |
| `Probe.WaitsForever` | src/urllib3/http2/probe.py:36-49 | A thread waiting for an origin's lock waits in every future exactly when the value is known and the lock is with a thread past giving it back |
| `Probe.SuccessStrands` | src/urllib3/connection.py:770-888 | After a successful probe one of two waiters takes the lock and keeps it; the other waits forever |
| `Probe.AtMostOneMore` | src/urllib3/http2/probe.py:36-49 | Once the value is known, of any number of threads waiting then at most one is ever let through |
| `Probe.TwoCanWait` | src/urllib3/http2/probe.py:18-49 | A run that leads to two waiters |
| `Probe.HTTP2ProbeCache.AcquireAndGet` | src/urllib3/http2/probe.py:18-49 | The method, uninterrupted, is a run of the steps of its thread, ending with an answer or at a lock that is not free |
| `Probe.HTTP2ProbeCache.SetAndRelease` | src/urllib3/http2/probe.py:51-63 | The method, called by the thread that probes, stores the value, frees the lock and never raises |
| `ReadStream.EveryRun` | src/urllib3/contrib/emscripten/fetch.py:153-197 | At every moment of every interleaving: delivered bytes, unread bytes in the buffer, the worker's remainder and the chunks not fetched make up the body; the worker writes the buffer only while the reader waits with nothing left in it; and a call for at least one byte returns none only with everything before the first empty chunk delivered |
| `ReadStream.EndsEarly` | src/urllib3/contrib/emscripten/fetch.py:153-197 | A run in which a call for one byte returns none although the body has one |
| `ReadStream.CompleteIff` | src/urllib3/contrib/emscripten/emscripten_fetch_worker.js:26-36 | What comes before the first empty chunk is the whole body exactly when only empty chunks follow it |
| `ReadStream.CallReturns` | src/urllib3/contrib/emscripten/fetch.py:153-197 | Inside a call one side can always go on, and the two cannot go on forever |
| `ReadStream.StepKeeps` | src/urllib3/contrib/emscripten/emscripten_fetch_worker.js:17-62 | Every step of either side keeps turn, buffer and account |
| `ReadStream.WorkerMoves` | src/urllib3/contrib/emscripten/emscripten_fetch_worker.js:49-62 | The worker only moves bytes from its chunk to the buffer |
| `ReadStream.ReaderMoves` | src/urllib3/contrib/emscripten/fetch.py:188-197 | The reader only moves bytes from the buffer to the caller |
| `ReadStream.WorkerStream.GetMore` | src/urllib3/contrib/emscripten/emscripten_fetch_worker.js:21-62 | The handler on real buffers: the bytes stored followed by what is left are what was left before; zero exactly for an empty chunk, the end exactly when nothing is left |
| `ReadStream.StreamReader.ReadInto` | src/urllib3/contrib/emscripten/fetch.py:153-197 | The next bytes in order into the caller's buffer, the rest of which is untouched; none only at an empty chunk or the end; an error only after that |
| `UrlEncode.EncodeInvalidChars` | src/urllib3/util/url.py:277-310 | The byte loop computes the encoding the lemmas below speak of; None stays None |
| `UrlEncode.EncodedMeans` | src/urllib3/util/url.py:284-310 | Section 2.1 of RFC 3986: when every % starts an escape the result decodes to the same bytes as the component; otherwise to the UTF-8 bytes of the component with its escapes in upper case |
| `UrlEncode.EncodedIsFixed` | src/urllib3/util/url.py:284-310 | The result consists of allowed characters and upper-case escapes; exactly such components are left alone; encoding twice is encoding once |
| `UrlEncode.CountsDecide` | src/urllib3/util/url.py:291-296 | The comparison of counts holds exactly when every % starts an escape |
| `UrlEncode.SourceCharsets` | src/urllib3/util/url.py:77-83 | The character sets of the module satisfy what the lemmas ask of them |
| `UrlPath.RemovePathDotSegments` | src/urllib3/util/url.py:313-340 | The loop over segments computes the segments the lemmas below speak of |
| `UrlPath.DotsRemoved` | src/urllib3/util/url.py:313-340 | On every path the result has no dot segments, a path is left alone exactly when it has none, and a second pass changes nothing |
| `UrlPath.AgreesWithRfc` | src/urllib3/util/url.py:313-340 | On every absolute path the result is that of section 5.2.4 of RFC 3986, unless ".." climbs above the root and the first segment kept is empty; then it has one "/" less |
| `UrlPath.BuffersAreSegments` | src/urllib3/util/url.py:314-329 | The buffers of the RFC's algorithm are the remaining segments and the stack of the loop |
| `UrlPath.DiffersFromRfc` | src/urllib3/util/url.py:331-334 | "/..//a" gives "/a", and "//a" in the RFC |
| `Urls.PrintParses` | src/urllib3/util/url.py:212-257 | Printing an http or https URL whose components are in normal form and parsing it gives the same URL |
| `Urls.RoundTrip` | src/urllib3/util/url.py:461-567 | Whatever string parses to an http or https URL, printing and parsing again gives that URL, unless its authority is an empty host and nothing else |
| `Urls.ParsesToEmptyAuthority` | src/urllib3/util/url.py:461-567 | "http://:" parses to a host that is empty and not None; printed and parsed again it has no host |
| `Urls.ParseIsNormal` | src/urllib3/util/url.py:461-567 | What parsing returns has its components in normal form |
| `Urls.HostIsNormal` | src/urllib3/util/url.py:351-389 | Normalising a host a second time changes nothing, and brings no delimiter into it |
| `Urls.UrlString` | src/urllib3/util/url.py:238-257 | The pieces are appended in order, each only when present |
| `Urls.PortParses` | src/urllib3/util/url.py:70-75 | A printed port is read back |
| `Recent.HoldsMostRecent` | src/urllib3/_collections.py:93-123 | After any run of gets and sets the container holds exactly the maxsize most recently touched distinct keys of the whole history, in the order of their last touch |
| `Recent.HeldIff` | src/urllib3/_collections.py:93-123 | A key is held exactly when it was touched and fewer than maxsize other keys were touched after its last touch |
| `Recent.HeldIsLastSet` | src/urllib3/_collections.py:93-123 | What is held for a key is what it was last set to |
| `Recent.RunConserves` | src/urllib3/_collections.py:100-149 | With deletes and clears too, every value ever set is held or was disposed of, exactly once |
| `Recent.KeysUnique` | src/urllib3/_collections.py:100-149 | No key is held twice and never more than maxsize |
| `Recent.RecentlyUsedContainer.GetItem` | src/urllib3/_collections.py:93-98 | Moves the entry to the end and returns its value; a missing key changes nothing |
| `Recent.RecentlyUsedContainer.SetItem` | src/urllib3/_collections.py:100-123 | Replaces and disposes of the old value, or inserts and disposes of the least recently used one when too many; with maxsize 0 of the new one |
| `Recent.RecentlyUsedContainer.DelItem` | src/urllib3/_collections.py:125-130 | The entry is gone and its value disposed of |
| `Recent.RecentlyUsedContainer.ClearAll` | src/urllib3/_collections.py:141-149 | Every value is disposed of, in order |
| `Recent.PoolCache.ConnectionFromPoolKey` | src/urllib3/poolmanager.py:346-370 | The pool held for the key, or a new one stored for it; either way the key becomes the most recently used |

## Left out

- BrotliDecoder and ZstdDecoder, and the choice of a decoder from headers with its limit on the number of links.
- The inside of zlib: `Zlib.Inflate` assumes a byte-serial format, an unconsumed tail whenever a limit stops it with output pending, and `unused_data` that keeps what follows a complete stream. What a decoder's `flush` adds to output already asked for without a limit is nothing.
- A file object that raises by itself: http.client's own `read()` without an amt raises IncompleteRead on a truncated body, which is then passed on; `Response.HTTPResponse.Read` and `Stream` speak of file objects that return what they have.
- Response.HTTPResponse.RawRead: whether a file object closes itself on an unlimited read is one fact about it, the same for every read; at the end of sized reads it may or may not.
- `read1`, `readinto`, `drain_conn`, reads with decode_content=False and the cached body.
- The links of a chain and the decompression object are held by value, so sharing one object between two owners is not modelled.
- Sockets, DNS, TLS, proxies and tunnels, logging and warnings, multipart forms.
- Time: sleeping, Retry-After dates, jitter and timeouts, in the pool, in retries and in the shared buffer.
- Asynchronous exceptions, and a pool closed between a thread's reading of `self.pool` and its use; queue operations and closing are single steps.
- PoolManager.PoolFetch: asks for a number or False as total, or for numbers in all other counters and no 0 among the statuses to retry; with less than that a server can keep a call going for ever. `PoolManager.HopsSend` does not ask for it.
- PoolManager.HopsSend: hosts and redirect locations as in the next line; that a pool leaves all but the counters of its retries as they were is a hypothesis where nothing bounds its attempts.
- GzipCalls.DecodeCalls: streams in which a member is rejected after it gave output are left to `Gzip.GzipDecoder.Decompress`; where the output breaks off there depends on the cuts and limits.
- GzipCalls.UnheldIsRight: the same.
- GzipCalls.DecodeUnheld: the same.
- PoolManager.ChainSends: hosts and redirect locations are compared as resolved origins; joining relative references, locations that cannot be used at all and headers given as a plain dictionary with names that differ only in case are not modelled.
- Proxy header merging and body rewinding in `urlopen`.
- Reader errors in the worker, whose handler falls through after reporting one (`src/urllib3/contrib/emscripten/emscripten_fetch_worker.js:39-47`), and the connection set-up message.
- Urls.RoundTrip: hosts in brackets (IPv6, zone identifiers) and labels beyond ASCII (IDNA) are outside the model, reported as such by the parser; so are lone surrogates.
- Urls.PrintParses: the same; a URL with such a host is not printed here.
- Urls.ParseIsNormal: the same; such hosts are reported, not normalised.
- Urls.HostIsNormal: the same; reg-names and IPv4 addresses only.
- UrlPath.AgreesWithRfc: relative paths, which the algorithm of the RFC is not meant for, are compared with nothing; `UrlPath.DotsRemoved` covers them.
- Exceptions for missing keys are absent results; the dispose function is the list of values handed to it.
- ProxyManager, pickling, form encoding, and the test server.
