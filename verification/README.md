# A verified model of the subscription-page proxy

The proxy stands in front of a subscription page. It asks the panel about a user, rewrites
response headers from templates, shuffles the hosts inside a subscription, answers broken
clients with a notice, and replays the last good response while the upstream is down. This
project models that behaviour in Dafny and proves what it is meant to guarantee.

`dafny verify dfyconfig.toml` verifies everything.

## How it is laid out

- `PanelCache.dfy` is the single-flight cache in front of the panel, one method per lock
  section. `SingleFlight.dfy` puts those sections, the unlocked fetch and the channel close of any
  number of callers in any order, as one labelled transition system, and proves what holds
  over every run.
- `SubCache.dfy` is the byte-budgeted fallback cache; `Body.dfy` buffers response bodies;
  `Proxy.dfy` holds the stages a request and its response pass; `Replay.dfy` interleaves any
  number of requests, upstream failures, lookups and stores, with each response computed by
  the functions the stages of `Proxy.dfy` are proved against.
- `Engine.dfy` is the header rewriting engine with a specification that looks at one header at
  a time; `Skipping.dfy` says when leaving the panel out cannot be noticed. They rest on
  `Tmpl.dfy` (placeholders), `Vars.dfy` (where a value comes from), `UserInfo.dfy` (the traffic
  header), `Codec.dfy` (wrapping a value) and `Headers.dfy`.
- `Shuffle.dfy` is the group-wise permutation, for every outcome of the random source.
  `Links.dfy`, `Singbox.dfy` and `Clash.dfy` apply it; `Reorder.dfy` and `Followers.dfy` let the
  lists that name hosts follow. `Sniff.dfy` tells the formats apart, `Hosts.dfy` dispatches on
  them, and `Placeholder.dfy` writes the hosts of a notice. `Lines.dfy` and `Relisting.dfy` follow a
  link list through two shuffles: when what the first one wrote is still read as a list.
- `Base64.dfy` decodes with four alphabets over one buffer (sections 3.2, 4 and 5 of RFC 4648,
  with the leniency of Go's decoder); `Strings.dfy` and `Numbers.dfy` are the parts of Go's
  libraries the rest needs.

Where the original updates something in place, the model has a class or an array and a method
proved against a function of the old state. A Go string is a sequence of bytes. Whatever the
code does not decide itself is a parameter or a step label that the theorems range over:
the clock, map iteration order, the random source, the panel's answer, the upstream's response,
how a reader splits its bytes, the regular expressions of the configuration, and the case
tables of Unicode.

## What turned out different from what one might expect

- A body is HTML or not by its rewritten header. Of the web pages that fit, exactly those get into
  the fallback cache whose Content-Type the engine removes or turns into something that does not
  say `text/html` (`Replay.PageGetsInIff`, over runs; `Replay.PageGetsIn` is a witness). Where the
  configuration leaves that header alone, none gets in (`Replay.NoPageIsKept`).
- With a header that has traffic fields, skipping the panel goes unnoticed under every
  configuration that spares `DAYS_LEFT`, and every answer, exactly when the header has a usable sum of
  upload and download, a total and an expiry (`Skipping.UnseenIffComplete`). `DAYS_LEFT` takes the
  panel's value when there is one, but never asks for it: with any complete header some rule
  shows the difference (`Skipping.DaysLeftTellsThemApart`).
- What shuffling writes over a link list is not always read as a link list again. It is, for every
  outcome of the random source, exactly when every line of the first link's group is itself a link,
  and in a plain list not one whose scheme is `proxies` (`Relisting.StaysAList`).
- Upload plus download can leave int64. The sum then wraps to a negative number and reads
  as unknown (`UserInfo.UsedIsSum`).
- A Clash group keeps exactly its members when members of one name are equal nodes, and not
  otherwise (`ClashConfig.GroupKeepsMembers`).
- A sing-box selector reads back in the new order exactly when no later key that folds to
  `outbounds` speaks for a place that changed (`Singbox.SelectorFollows`); package encoding/json
  decodes a repeated list over the one before it, and a null leaves what stands there.
- The walk that looks for the oldest entry of the fallback cache uses the empty key for "none so
  far". It finds an oldest entry in every order exactly when no entry has that key, or it is alone, or
  another entry is at least as old (`SubCache.OldestIffNamed`). Keys are never empty
  (`SubCache.KeyInjective`).
- After a transient failure a second leader for a key can start fetching before the first one has
  closed its call (`SingleFlight.SecondLeaderBeforeClose`).

## Model

| member | source | states |
|---|---|---|
| PanelCache.Cache.Lookup | internal/panel/cache.go:90-99 | an answer comes back exactly when a live entry holds it |
| PanelCache.Cache.Join | internal/panel/cache.go:58-74 | in one lock section a caller is served, joins the registered call, or registers a fresh one that nobody else has |
| PanelCache.Cache.Publish | internal/panel/cache.go:81-84 | unregisters the key and stores a success or a not-found for its own lifetime, a transient failure not at all |
| PanelCache.Cache.EvictIfNeeded | internal/panel/cache.go:121-139 | below the cap nothing goes; at the cap all expired entries go, then just enough live ones, chosen by map order |
| PanelCache.Cache.DropLive | internal/panel/cache.go:133-138 | drops exactly as many live entries as make room for one |
| PanelCache.StoredWithinCap | internal/panel/cache.go:102-139 | storing never takes the cache over a positive cap |
| SingleFlight.StepKeeps | internal/panel/cache.go:53-88 | every step of every caller keeps the invariant: calls have one leader at the stage they show, registered calls are the unpublished ones, entries come from calls |
| SingleFlight.OneFetchPerKey | internal/panel/cache.go:63-84 | in every run at most one unpublished fetch exists per key, and it is the registered call, owned by that caller, so its delete removes its own call |
| SingleFlight.RegisteredIsLed | internal/panel/cache.go:72-82 | every registered call has a caller between registration and publication |
| SingleFlight.CallContinues | internal/panel/cache.go:78-87 | over any continuation a call keeps its key and leader, a received answer never changes, and a closed call changes no more |
| SingleFlight.WaiterGetsLeadersAnswer | internal/panel/cache.go:63-71 | a waiter that is not cancelled returns exactly the closed answer of the call it joined, for its own key |
| SingleFlight.LeaderCanMove | internal/panel/cache.go:76-86 | while a waiter is parked its leader has an enabled step that brings it closer to the close |
| SingleFlight.LeaderCloses | internal/panel/cache.go:76-87 | each step of the leader counts down, so after as many steps as are left the call is closed |
| SingleFlight.EntriesAreFetched | internal/panel/cache.go:102-139 | in every reachable state each entry holds the success or not-found that was fetched for its key, with the matching lifetime, and the cap holds |
| SingleFlight.NeverOverwritesLive | internal/panel/cache.go:81-84 | no publication ever overwrites a live entry |
| SingleFlight.AnswersAreFetched | internal/panel/cache.go:53-88 | whatever a caller returns was fetched for its own key |
| SingleFlight.SecondLeaderBeforeClose | internal/panel/cache.go:81-86 | publication and close are apart: a run where a second leader fetches before the first closes |
| SubCache.Cache.Get | internal/subcache/subcache.go:68-81 | returns a live entry, removes an expired one |
| SubCache.Cache.Put | internal/subcache/subcache.go:83-96 | an oversized body changes nothing; any other entry replaces its predecessor, and the evictions of the two walks, for any keys, bring the total within a positive budget; with no empty key they are all right ones |
| SubCache.Cache.Remove | internal/subcache/subcache.go:98-103 | the running total stays the sum of the sizes of what is stored |
| SubCache.Cache.Evict | internal/subcache/subcache.go:106-131 | every entry evicted was expired, or nothing left was and a walk chose it, and only over budget; with no empty key nothing left was older; both loops end |
| SubCache.WalkedIsRight | internal/subcache/subcache.go:106-131 | where no key is empty each eviction of the walks takes an expired entry or, with none left, an oldest one |
| SubCache.Cache.EvictExpired | internal/subcache/subcache.go:111-119 | stops as soon as the total fits, else leaves no expired entry |
| SubCache.Cache.Oldest | internal/subcache/subcache.go:121-129 | picks what the walk's own rule picks, an oldest entry when no key is empty |
| SubCache.OldestIffNamed | internal/subcache/subcache.go:121-129 | exactly when every order of the walk finds an oldest entry |
| SubCache.MeasureEntry | internal/subcache/subcache.go:17-26 | the size is the body, and the names and values of all header fields, in any order |
| SubCache.Cache.Stats | internal/subcache/subcache.go:133-137 | the reported bytes are the sum of the stored sizes |
| SubCache.LiveGoLast | internal/subcache/subcache.go:106-131 | a live entry goes only after every expired one, never while a strictly older one stays |
| SubCache.OnlyOverBudget | internal/subcache/subcache.go:106-131 | before each eviction the total was over budget, and nothing is evicted twice |
| SubCache.PutKeepsNewest | internal/subcache/subcache.go:83-96 | an entry that fits the budget and is strictly the newest survives its own Put |
| SubCache.KeyInjective | internal/subcache/subcache.go:55-66 | keys differ when any part does, if the last three parts hold no NUL, and are never empty |
| Base64.AlphabetsAgree | internal/b64/b64.go:9-37 | any two of the four alphabets that decode a text give the same bytes |
| Base64.DecodedAsksOnce | internal/b64/b64.go:18-37 | accept decides on one value only: with accept the four alphabets give what they would without it, or nothing, as accept says of that value, for any text |
| Base64.FirstAcceptedSound | internal/b64/b64.go:18-37 | a result decodes under its alphabet and is accepted; none means no alphabet gives an accepted value |
| Base64.DecodeInto | internal/b64/b64.go:24-33 | decoding into a shared buffer of floor(6n/8) bytes never overruns it and equals decoding on its own |
| Base64.IsPlausible | internal/b64/b64.go:41-51 | says whether every byte may occur in some encoding |
| Base64.ImplausibleNeverDecodes | internal/b64/b64.go:41-51 | the early rejection loses nothing: such a text decodes under no alphabet |
| Base64.Decode | internal/b64/b64.go:18-37 | the loop over one shared buffer, with early rejection, equals independent decodes in order |
| Base64.DecodedOfEncode | internal/b64/b64.go:18-37 | encoding then Decode gives back the bytes and an alphabet that encodes them alike |
| Codec.DecodeInvertsEncode | internal/rewrite/codec.go:24-71 | printable text wrapped in either base64 form decodes to itself and the same form |
| Body.ReadUpTo | internal/proxy/body.go:51-71 | buffered and unread bytes together are always the whole body; it ends within the limit exactly when the body fits and reads without error; an accurate hint never grows the buffer |
| Body.Response.Drain | internal/proxy/body.go:27-47 | succeeds exactly when the unread body fits and no read fails, and either way what can be read is unchanged |
| Body.Response.SetBody | internal/proxy/body.go:12-17 | the new body can be read whole and Content-Length is its length |
| Shuffle.ApplySwaps | internal/hosts/shuffle.go:130-134 | swapping in place gives what the swaps give |
| Shuffle.CollectSlots | internal/hosts/shuffle.go:104-120 | per group, exactly its slots in ascending order |
| Shuffle.Permutation | internal/hosts/shuffle.go:104-146 | nothing exactly when no slot would change, else the permutation of the swaps |
| Shuffle.ShuffledIsBijection | internal/hosts/shuffle.go:104-146 | for any names, groups and swaps: a bijection that keeps every group within its slots and fixes ungrouped slots |
| Shuffle.ArrangedKeepsAll | internal/hosts/shuffle.go:104-146 | applying it loses and duplicates nothing |
| Shuffle.Group | internal/hosts/shuffle.go:91-101 | the first group that matches, none for an empty name or when no group does |
| Reorder.ReorderNames | internal/hosts/shuffle.go:150-177 | the array holds the reordered list, and the result is true exactly when it changed |
| Reorder.ReorderedFollows | internal/hosts/shuffle.go:150-177 | the same names, those without a slot in place, those with one in the order of their slots |
| Reorder.ReorderedBySlot | internal/hosts/shuffle.go:150-177 | of any two listed hosts the earlier one holds the earlier slot |
| Reorder.ReorderedTwice | internal/hosts/shuffle.go:150-177 | a second call changes nothing |
| Followers.SlotIndexIs | internal/hosts/singbox.go:36-46 | a name's index is the last slot a host of that name now holds, for grouped names only |
| Followers.MoveSlots | internal/hosts/clash.go:36-46 | the loop fills every slot with its new entry and records for each grouped name the last slot it holds |
| Links.LooksLikeLinks | internal/hosts/links.go:52-68 | line by line: the first line that is not blank is a link |
| Links.ApplyLinks | internal/hosts/links.go:14-40 | unchanged means byte-identical; changed means the lines permuted, under the wrapping they came in |
| Links.LinksOnlyMove | internal/hosts/links.go:14-49 | for every body and outcome the result decodes under the same wrapping to the same lines rearranged, each within its group, lines outside the groups at their index |
| Hosts.Apply | internal/hosts/shuffle.go:29-46 | no groups, an empty or unknown body: nothing changes; a body that sniffs as links changes only if it is a list, into an outcome of the link shuffle |
| Lines.SniffByLines | internal/hosts/shuffle.go:61-74 | a text sniffs as links exactly by its first line that is not blank and by no later line starting with the Clash key |
| Relisting.OutcomeReads | internal/hosts/links.go:14-68 | what a shuffle wrote is read as a list again exactly when the line that came to the front can lead it |
| Relisting.StaysAList | internal/hosts/links.go:14-68 | that holds for every outcome of the random source exactly when every line of the first link's group can lead |
| Singbox.ApplySingbox | internal/hosts/singbox.go:7-78 | changes the document exactly when the permutation moves something, and then only its outbounds |
| Singbox.FollowAll | internal/hosts/singbox.go:48-72 | the loop makes each selector follow and leaves alone what does not decode or does not change |
| Singbox.SelectorsFollow | internal/hosts/singbox.go:36-72 | every slot holds the host moved there, and every selector that reads back lists its hosts by the slots they now hold and keeps all other members in place |
| Singbox.SelectorFollows | internal/hosts/singbox.go:48-72 | exactly when a reordered selector reads back in the new order; tag and server stay |
| Singbox.OneListReadsBack | internal/hosts/singbox.go:48-72 | it does when its first key of that name is the last one read as the list |
| Singbox.SelectorKeepsRest | internal/hosts/singbox.go:60-70 | every other member of the outbound is unchanged |
| ClashConfig.ApplyClash | internal/hosts/clash.go:16-82 | changes the document exactly when the permutation moves something |
| ClashConfig.ReorderMembers | internal/hosts/clash.go:51-72 | collecting names, reordering and looking nodes up by name, in place |
| ClashConfig.GroupFollows | internal/hosts/clash.go:47-72 | a group's names are the same, hosts by the slots they now hold, others in place |
| ClashConfig.GroupKeepsMembers | internal/hosts/clash.go:51-72 | a changed group keeps exactly its nodes if and only if nodes of one name are equal |
| ClashConfig.DocumentKeepsRest | internal/hosts/clash.go:16-82 | the proxies are rearranged, the group lists follow, and every other node of the root is unchanged |
| ClashConfig.WithContentKeepsRest | internal/hosts/clash.go:84-94 | replacing a value's content touches nothing else |
| Sniffing.ClashIsKeyAtLineStart | internal/hosts/clash.go:11-13 | the plain byte search finds the key exactly when it starts a line |
| Placeholder.CollectNames | internal/hosts/placeholder.go:36-51 | the loop with its map computes the trimmed, de-duplicated names |
| Placeholder.UniqueIs | internal/hosts/placeholder.go:36-51 | exactly the trimmed names that are not blank, each once |
| Placeholder.UniqueInOrder | internal/hosts/placeholder.go:36-51 | in order of first appearance: an earlier name of the result occurs before the later one does at all |
| Placeholder.UnescapeOfEscape | internal/hosts/placeholder.go:54-61 | percent-encoding (section 2.1 of RFC 3986) reads back |
| Placeholder.BuildLinks | internal/hosts/placeholder.go:54-61 | one link per name, joined and wrapped |
| Placeholder.LinkCarriesName | internal/hosts/links.go:81-105 | the name of a placeholder link is the name it was made for |
| Placeholder.PlaceholderReadsBack | internal/hosts/placeholder.go:36-61 | a list with a name that is not blank sniffs as links and decodes to exactly its unique names in order |
| Tmpl.Unambiguous | internal/tmpl/tmpl.go:11-22 | what the regexp can match from a position is one thing |
| Tmpl.Disjoint | internal/tmpl/tmpl.go:11-22 | two placeholders are the same or do not overlap |
| Tmpl.FindAllComplete | internal/tmpl/tmpl.go:28-60 | the search misses no placeholder |
| Tmpl.ContainsPlaceholder | internal/tmpl/tmpl.go:24-26 | true exactly when the regexp matches somewhere, with the brace test first |
| Tmpl.ContainsIffNames | internal/tmpl/tmpl.go:24-39 | a text contains a placeholder exactly when it names one |
| Tmpl.NamesAreThePlaceholders | internal/tmpl/tmpl.go:28-39 | the names are those of the placeholders, each once |
| Tmpl.Names | internal/tmpl/tmpl.go:28-39 | the loop lists them in order of first appearance |
| Tmpl.Render | internal/tmpl/tmpl.go:42-60 | the single-pass loop computes the rendering |
| Tmpl.RenderIsTwoPass | internal/tmpl/tmpl.go:42-60 | it equals replacing every match by matching it once more |
| Tmpl.RenderUsesNamesOnly | internal/tmpl/tmpl.go:42-80 | the lookup is consulted on the names in the text and nothing else |
| Tmpl.RenderOfUnknownIsIdentity | internal/tmpl/tmpl.go:42-80 | with every name unknown and kept and no default, rendering is the identity |
| Tmpl.TruncateFits | internal/tmpl/tmpl.go:131-143 | a truncated text has exactly n runes, those in front and the ellipsis |
| UserInfo.ParseUserInfo | internal/subinfo/userinfo.go:32-60 | the loop over the parts: later parts win, malformed ones are skipped |
| UserInfo.UsedIsSum | internal/subinfo/userinfo.go:18-29 | the sum of the counters present while there is one and it fits int64, else negative, as unknown |
| UserInfo.ForceUnlimitedTotal | internal/subinfo/userinfo.go:63-87 | the loop rewrites every total, drops blank parts and adds a total where there is none |
| UserInfo.ForcedParses | internal/subinfo/userinfo.go:32-87 | a forced header always parses, to the original's fields with the total 0 |
| UserInfo.ForceTwice | internal/subinfo/userinfo.go:63-87 | forcing twice equals forcing once |
| Vars.FindUnit | internal/subinfo/vars.go:416-423 | the loop finds the unit index |
| Vars.UnitFits | internal/subinfo/vars.go:416-423 | the count is at least one of its unit and less than one of the next |
| Vars.ChooseScale | internal/subinfo/vars.go:433-443 | the largest unit that the limit fills, or what is used without a limit; the smallest for neither |
| Vars.ScaleIsShared | internal/subinfo/vars.go:189-261 | TRAFFIC_USED_IN_LIMIT and TRAFFIC_LIMIT_VALUE are written in the one unit TRAFFIC_UNIT names, the limit's own |
| Vars.PercentIsNearest | internal/subinfo/vars.go:374-384 | the nearest whole percentage, 100 from the limit on, 0 without a limit, known exactly when both counts are |
| Vars.CountTraffic | internal/subinfo/vars.go:308-328 | a counter the header gives is never overruled, any other is the panel's if it gives one, and something is known exactly when one of the two is |
| Vars.NeedsPanel | internal/subinfo/vars.go:105-120 | true exactly when some name that is not configured comes from the panel, or from traffic without a header |
| Vars.BlindIffComplete | internal/subinfo/vars.go:189-340 | with a header, every traffic value but DAYS_LEFT is the same for every panel answer exactly when the header is complete |
| Vars.DaysLeftIsNeverBlind | internal/subinfo/vars.go:263-293 | DAYS_LEFT depends on the panel whatever the header says |
| Vars.SkippedLookupIsBlind | internal/subinfo/vars.go:105-144 | a name that needs no panel and is not DAYS_LEFT looks up the same for every answer |
| Engine.FirstRule | internal/rewrite/engine.go:139-149 | the least rule that claims a header, none when none does |
| Engine.WhatClaims | internal/rewrite/engine.go:217-296 | exactly when a rule yields a candidate: a remove rule when the header is there, one without a template when its text holds a placeholder, any other always |
| Engine.Collect | internal/rewrite/engine.go:217-261 | the candidates of the rules in order, then those of the scan in whatever order the map gives |
| Engine.WinnerDecides | internal/rewrite/engine.go:139-166 | whatever that order, the first candidate whose late conditions hold is the deciding one of the per-header reading |
| Engine.Survey | internal/rewrite/engine.go:115-137 | gathering all needs first finds exactly whether some candidate needs the panel, names inside a used original included |
| Engine.ApplyEach | internal/rewrite/engine.go:143-166 | writing each header once, by its first winner, gives the specified header |
| Engine.Apply | internal/rewrite/engine.go:91-166 | the header in place equals the per-header specification read off the header after force_unlimited, and the panel is asked exactly when it says |
| Engine.OthersAreKept | internal/rewrite/engine.go:217-261 | a header no rule names, with no placeholder to scan for, is unchanged |
| Engine.ForcedIsUnlimited | internal/rewrite/engine.go:99-102 | force_unlimited sets the total to 0 and keeps everything else the header says |
| Engine.WrittenReadsBack | internal/rewrite/engine.go:150-158 | the value written unwraps to the rendered text, in at most max_length runes |
| Engine.WrappingIsKept | internal/rewrite/engine.go:263-296 | a scanned header keeps its base64 wrapping exactly when it was unwrapped |
| Engine.Render | internal/rewrite/engine.go:169-173 | one template rendered, asking the panel only when a name needs it |
| Headers.CanonicalTwice | internal/rewrite/engine.go:143-146 | canonical names are canonical |
| Skipping.PanelIsInvisible | internal/rewrite/engine.go:109-137 | when nothing needs the panel, no candidate names DAYS_LEFT and the header is complete or absent, every answer leads to the same header |
| Skipping.SkippingIsInvisible | internal/rewrite/engine.go:109-137 | under those conditions skipping the panel leaves the header that always asking would |
| Skipping.MessageSkipIsInvisible | internal/rewrite/engine.go:169-194 | the same for a single template, or when it asks the panel anyway |
| Skipping.UnseenIffComplete | internal/rewrite/engine.go:91-137 | skipping goes unnoticed under every configuration without DAYS_LEFT, and every answer, exactly when the header is complete |
| Skipping.DaysLeftTellsThemApart | internal/rewrite/engine.go:109-137 | with DAYS_LEFT the two differ, for every complete header |
| Proxy.Match | internal/proxy/useragent.go:52-62 | the first rule whose pattern matches |
| Proxy.Admit | internal/proxy/proxy.go:175-216 | what is refused, answered at once, or forwarded, and with which cache key and notice |
| Proxy.WhoIsCached | internal/proxy/proxy.go:200-213 | a request has a cache key exactly when it names a subscription and no agent rule matches it |
| Proxy.ShuffleHosts | internal/proxy/shuffle.go:13-30 | changes the body only of an uncompressed 200 that is no HTML and fits; otherwise the whole body still streams |
| Proxy.ReplaceWithCache | internal/proxy/cache.go:37-57 | an error response becomes the live entry of its key, and nothing else does |
| Proxy.Store | internal/proxy/cache.go:60-73 | what is kept is the response as it goes out, only under a key, only if it may be rewritten and fits; the response is unchanged |
| Proxy.NoticeMessage | internal/proxy/useragent.go:65-74 | a rule with words never falls silent: the message is blank only when the rule's own text is, and it is trimmed |
| Proxy.NoticeNamesAHost | internal/proxy/useragent.go:65-116 | so a notice for a rule with words always names a host |
| Proxy.ApplyNotice | internal/proxy/useragent.go:78-100 | headers stay, the body becomes placeholder hosts in the body's own format; errors and HTML pass |
| Proxy.NoticeIsRead | internal/proxy/useragent.go:78-123 | a link-list client reads the lines of the message back as host names, and the stated length is the body's |
| Proxy.HandleOwn | internal/proxy/proxy.go:146-166 | the upstream's own response becomes what rewriting, notice and shuffle make of it, and is kept exactly when that may be and there is no notice |
| Proxy.ModifyResponse | internal/proxy/proxy.go:136-166 | the stages in order equal one function of the response, the cache hit and the oracles; the cache gains an entry only outside replays and notices |
| Proxy.WriteFromCache | internal/proxy/cache.go:18-34 | served exactly when a live entry exists, with its status, all its header fields and its body, shuffled unless compressed |
| Proxy.HandleError | internal/proxy/proxy.go:233-264 | nothing for a client that left, the fallback if there is one, else 502 |
| Proxy.WriteBlock | internal/proxy/useragent.go:103-112 | status, header and body of an answer that is never forwarded |
| Replay.StepKeeps | internal/proxy/proxy.go:136-216 | every step of every request keeps the invariant on entries, stores in progress and finished replays |
| Replay.EntriesAreGoodAnswers | internal/proxy/cache.go:60-73 | over every run each entry came from a 200 that was no HTML once rewritten, its hosts at most moved, under the key of its request |
| Replay.ReplaysAreFaithful | internal/proxy/cache.go:10-57 | over every run each replay is such an entry of a request with the same short UUID, client type, User-Agent and Accept-Encoding that no agent rule matches; its status and exactly its header bar Content-Length (with nothing of an error response it replaces, and of an answer already begun only fields the entry lacks), hosts at most moved, Content-Length the body's |
| Replay.HiddenIff | internal/proxy/body.go:90-97 | a rewritten web page no longer says so exactly when what decides over Content-Type removes it or writes something else |
| Replay.KeptPageIff | internal/proxy/cache.go:60-73 | a web page that fits is kept exactly when the engine hides that it is one |
| Replay.GetsInIff | internal/proxy/proxy.go:136-216 | exactly the responses the stages keep are found in the cache after some run |
| Replay.PageGetsInIff | internal/proxy/proxy.go:153-166 | and of the web pages that fit, exactly those the engine hides |
| Replay.KeptPagesAreHidden | internal/proxy/cache.go:60-73 | over every run an entry that came as a web page was hidden by the engine |
| Replay.NoPageIsKept | internal/proxy/body.go:91-97 | where the configuration leaves Content-Type alone no run ends with an entry that came from a web page |
| Replay.PageGetsIn | internal/proxy/proxy.go:153-166 | a rule that writes Content-Type lets one in |
| Replay.ReplayedLinks | internal/proxy/cache.go:18-57 | over every run a replayed link list holds the stored list's lines, moved within their groups, the others in place |
| Replay.ReplayedUpstreamLinks | internal/proxy/cache.go:10-73 | and the lines the upstream sent, through both shuffles, as long as what was stored sniffs as links, which a steady list always does |

## Left out

- SubCache.Cache.Put: byte totals are unbounded integers, so an int64 overflow of the total is not modelled. An entry is a value, so changing one after it was stored is not modelled either.
- Engine.Apply: reads the clock once where the code may read it at each placeholder, and takes header names to be canonical, as package net/http delivers them.
- Vars.PercentIsNearest: exact integer arithmetic where the code rounds a float64, the same for counts below 2^53; likewise the unit index divides integers.
- Replay.EntriesAreGoodAnswers: what the shuffler may do to a body is a parameter of the runs. For link lists `Replay.ReplayedUpstreamLinks` fills it in; the sing-box and Clash shuffles are proved on trees, and the text of those trees is not modelled.
- Replay.ReplaysAreFaithful: the same.
- Proxy.ApplyNotice: the placeholder hosts in JSON and YAML are an oracle; those in links are not.
- Proxy.HandleError: closing the hijacked connection without an answer, where that is possible, is replaced by the 502 sent where it is not.
- Counting the entries of the panel cache for statistics (internal/panel/cache.go:141-145).
- Fetches that panic or never return, and the 30-second limit on them.
- internal/panel/client.go: the panel is an oracle that answers success, not found, or failure.
- The text of JSON and YAML, and of the regular expressions other than the placeholder's: documents are ordered trees, patterns are arbitrary predicates. Aliased YAML nodes, comments, indentation and string escapes are not modelled.
- Names read out of vmess links: their JSON is an oracle.
- Writing byte counts, dates and times: an oracle; time zones are part of it.
- Unicode case tables: oracles for the upper and lower modifiers and for matching client types, statuses and content types.
- internal/hosts/xray.go and the placeholder hosts in JSON and YAML, which permute whole documents without followers.
- internal/config, internal/realip, internal/proxy/route.go, internal/proxy/block.go, internal/proxy/headercase.go: loading and checking of configuration, addresses, paths; their results are inputs here.
- HTTP servers and transports, hijacking a connection in place of a 502, logging, signals and health checks.
