# Baccarat ledger and forwarding sessions of `main_final.py`

`main_final.py` is a Telegram bot with two small cores of logic. This project
models both in Dafny and proves properties of the model.

**Baccarat wagering.** The `/baccarat` command reads a wager such as
`/baccarat 闲100 超620 庄对30`. The parser (`parse_bets`) turns it into a map
from bet kind to a positive stake. The round deals two two-card hands
(`deal_cards`) and decides the winner on points, the sum of a hand modulo 10
(`baccarat_result`). It also decides the super six side bet
(`check_super_six`). The settlement loop adds up what every winning kind
returns. The per-user ledger `user_data` is then debited with the total stake
and credited with that payout. `/balance` makes a ledger entry on first use.
`/add @name amount` lets the admin credit the first entry carrying a
username.

**Forwarding sessions.** Two maps hold the state. `forward_sessions` maps a
chat to PENDING or to a partner chat. `session_timestamp` maps a chat to its
last activity. The forwarding button makes a chat PENDING. The next text from
that chat pairs it with the admin. Later texts are relayed to the partner and
refresh both times. The exit button removes the caller and its partner. A
periodic sweep removes every chat idle for more than 300 seconds.

Files:

- `Wrappers.dfy`: the `Option` type.
- `Text.dfy`: the parts of Python's `str` the code relies on. These are
  `isspace`, `strip`, `split()`, `replace(pat, "")` and `int()` of a string.
- `Bets.dfy`: the wager parser.
- `Baccarat.dfy`: the deal, points, outcome, super six, per-kind gains and the
  settlement loop (`ComputePayout`).
- `Wagering.dfy`: the ledger as a class `Ledger`, with the round and `/add`
  as methods.
- `Sessions.dfy`: the session transitions as functions on a `Table` of both
  maps, and the class `SessionRegistry`. Each of its methods is proved equal
  to the matching transition.

## Model

| member | source | states |
|---|---|---|
| Text.IsSpace | main_final.py:268 | no contract: the characters `str.isspace` accepts, the blanks `strip()` and `split()` drop; characterised through Text.StripLeft, Text.StripRight and Text.Split |
| Text.StripLeft | main_final.py:268 | the result is a suffix of the input; everything cut off is blank; the result does not start with a blank |
| Text.StripRight | main_final.py:268 | the result is a prefix of the input; everything cut off is blank; the result does not end with a blank |
| Text.WordLen | main_final.py:268 | the length of the longest blank-free prefix: that prefix has no blank, and the character after it is a blank |
| Text.Strip | main_final.py:268 | `strip()` returns no more than the text, and its result starts and ends with a non-blank |
| Text.StripChars | main_final.py:268 | `strip()` keeps one contiguous run of the text, from the end of the leading blanks on, and all it cuts off on either side is blank |
| Text.Split | main_final.py:268 | every word `split()` returns is non-empty and blank-free |
| Text.WordLenOfWord | main_final.py:268 | a blank-free word followed by a blank or by nothing is read as one word of exactly its length |
| Text.SplitJoin | main_final.py:268 | `split()` gives back exactly the words that were joined with blanks |
| Text.SplitSkipsLeadingBlanks | main_final.py:268 | leading blanks do not change the words |
| Text.SplitIgnoresTrailingBlanks | main_final.py:268 | trailing blanks do not change the words |
| Text.AllBlankHasNoWords | main_final.py:268 | an all-blank text has no words |
| Text.SplitStrip | main_final.py:268 | `strip()` before `split()` does not change the words |
| Text.RemoveAll | main_final.py:268 | cutting out the command word never makes the text longer |
| Text.RemoveAllAbsent | main_final.py:268 | a text that does not contain the command word is left unchanged |
| Text.AbsentFirstChar | main_final.py:268 | a text without the pattern's first character does not contain the pattern |
| Text.ParseInt | main_final.py:273 | `int()` fails on the empty text and on a bad first character; a leading `-` makes the value non-positive; a leading `+` or digit makes it non-negative |
| Text.DigitsValueDecimal | main_final.py:273 | the decimal digits of a natural number read back as that number |
| Text.ParseIntDecimal | main_final.py:273 | `int()` reads the decimal form of a natural number back as that number, and with a leading `-` as its negation |
| Bets.LabelAmount | main_final.py:271-275 | a tag gives a token a stake exactly when the tag prefixes the token and the rest reads as an integer above zero, and the stake is that integer |
| Bets.ParseTokens | main_final.py:267-278 | every recorded stake is positive |
| Bets.ParseBets | main_final.py:256-278 | `parse_bets` records only positive stakes, and the key type admits only the eight kinds |
| Bets.AtMostOneLabel | main_final.py:257-275 | no token gets a stake from two tags of the table |
| Bets.FirstFromFound | main_final.py:270-275 | a bet found for a token comes from a tag of the table that gives it that positive stake |
| Bets.FirstFromNone | main_final.py:270-275 | a token bets nothing exactly when no tag gives it a stake |
| Bets.FirstFromOfTag | main_final.py:270-275 | a tag that gives the token a stake decides its bet, wherever the search starts |
| Bets.TokenBetOfTag | main_final.py:270-275 | a token that a tag gives a stake bets exactly that kind and stake |
| Bets.TagMismatch | main_final.py:271 | a tag that differs from the token at some position gives no stake |
| Bets.ApplyLabels | main_final.py:270-277 | no contract: the inner loop over the tag table for one token, with no break; Bets.ApplyLabelsIsFirst proves it equal to the update by the first matching tag |
| Bets.ApplyToken | main_final.py:269-277 | no contract: one pass of the outer loop; Bets.ApplyTokenIsTokenBet proves it changes only the token's kind, to its positive stake |
| Bets.ApplyLabelsIsFirst | main_final.py:270-277 | the inner loop over the tag table sets at most the kind of the one matching tag and keeps all else |
| Bets.ApplyTokenIsTokenBet | main_final.py:269-277 | one token overwrites only the kind it bets on, with a positive stake |
| Bets.ParseTokensSnoc | main_final.py:269-277 | the wager of tokens plus one more is the earlier wager updated by the last token's bet |
| Bets.KindAbsent | main_final.py:269-277 | a kind is missing from the wager exactly when no token bets on it, so unknown or unreadable tokens are dropped |
| Bets.ParseTokensKeeps | main_final.py:269-277 | a last token that does not bet on a kind leaves that kind's stake as it was |
| Bets.LastTokenWins | main_final.py:269-277 | the last token that bets on a kind decides its stake |
| Bets.TokenRoundTrip | main_final.py:270-275 | every tag of the table followed by the decimal form of a positive amount bets exactly that amount on the tag's kind |
| Bets.BankerPairExample | main_final.py:257-275 | `庄对30` bets 30 on the banker pair, not on the banker |
| Bets.SuperSixExample | main_final.py:263-275 | `超620` bets 20 on super six |
| Bets.ZeroStakeDropped | main_final.py:274 | `闲0` bets nothing |
| Bets.CommandWordCut | main_final.py:268 | cutting the command word out of `/baccarat 闲100 小50` leaves ` 闲100 小50` |
| Bets.CommandWords | main_final.py:268 | ` 闲100 小50` splits into `闲100` and `小50` |
| Bets.PlayerHundred | main_final.py:270-275 | `闲100` bets 100 on the player |
| Bets.SmallFifty | main_final.py:270-275 | `小50` bets 50 on small |
| Bets.TwoTokens | main_final.py:269-277 | two betting tokens give the empty wager updated by the first and then the second: on different kinds a wager on both, on the same kind the later stake overwrites the earlier |
| Bets.CommandExample | main_final.py:256-278 | `/baccarat 闲100 小50` parses to 100 on the player and 50 on small |
| Baccarat.DealCards | main_final.py:232-235 | two hands of two cards 1..9; the player gets the first two draws and the banker the last two |
| Baccarat.Point | main_final.py:238-239 | a point lies in 0..9 |
| Baccarat.Resolve | main_final.py:237-245 | player iff the player's point is higher, banker iff it is lower, tie iff equal |
| Baccarat.CheckSuperSix | main_final.py:247-254 | fires iff the banker wins on point 6; pays 20 for a three-card banker hand and 12 otherwise; pays 0 when it does not fire |
| Baccarat.TruncDiv | main_final.py:338 | `int()` of an exact quotient truncates toward zero: for a non-negative dividend it is the floor, for a negative one the ceiling |
| Baccarat.WinGain | main_final.py:331-356 | each kind wins exactly on its own condition stated on the hands (player, banker, tie on points; the pairs on equal first cards; super six on a banker win at 6; big on 5 or 6 cards; small on 4); the banker, big and small gains are 0.95, 0.54 and 1.5 times the stake truncated |
| Baccarat.KindReturn | main_final.py:357-358 | no contract: `int(gain) + amount` for a winning kind, nothing otherwise; Baccarat.SingleKind and Baccarat.PayoutAdditive make the payout the sum of these returns |
| Baccarat.ComputePayout | main_final.py:327-358 | the loop's payout is the sum over placed kinds of gain plus stake for the winning ones |
| Baccarat.ResolveMirror | main_final.py:237-245 | swapping the hands swaps the winner |
| Baccarat.SuperSixNeedsBankerSix | main_final.py:247-249 | super six needs banker point 6 against a lower player point |
| Baccarat.TwoCardSideBets | main_final.py:351-356 | with dealt two-card hands, small always wins and gains one and a half times its stake (truncated), big never wins, and super six pays 0 or 12 and never 20 |
| Baccarat.GainBounds | main_final.py:333-356 | a winning bet gains between 0 and 20 times its stake |
| Baccarat.PayoutOverBounds | main_final.py:330-358 | the returns of any run of kinds lie between 0 and 21 times their stakes |
| Baccarat.Payout | main_final.py:327-358 | for a wager of positive stakes, `payout` lies between 0 and 21 times the total stake |
| Baccarat.StakeOverPositive | main_final.py:321 | a sum of positive stakes is non-negative, and positive when one kind is placed |
| Baccarat.TotalStake | main_final.py:321 | for a wager of positive stakes, `total_bet` is non-negative, and positive exactly when something is wagered |
| Baccarat.AllKindsIndex | main_final.py:330 | every kind appears in the settlement order |
| Baccarat.PayoutOverAdditive | main_final.py:330-358 | kinds are settled independently: returns of wagers on disjoint kinds add up |
| Baccarat.PayoutAdditive | main_final.py:330-358 | the payout of two wagers on disjoint kinds is the sum of their payouts |
| Baccarat.StakeOverAdditive | main_final.py:321 | the stakes of two wagers on disjoint kinds add up |
| Baccarat.SingleKindOver | main_final.py:330-358 | over distinct kinds, a one-kind wager has only that kind's stake and return |
| Baccarat.SingleKind | main_final.py:321-358 | a one-kind wager has that stake as its total and that kind's return as its payout |
| Baccarat.PlayerAndSmallExample | main_final.py:321-358 | 100 on the player and 50 on small, player 5 against banker 3, stake 150 in total and return 325 |
| Wagering.RoundBalance | main_final.py:317-363 | a round is refused iff the wager is empty or exceeds the balance; otherwise the new balance is at least the old one minus the stake, at most the old one plus 20 times the stake, and never negative |
| Wagering.RoundReplyFor | main_final.py:317-363 | the round is played iff it is not refused; the balance it reports is the new balance, or the old one when refused |
| Wagering.MentionName | main_final.py:299 | the username is the mention text without its first character |
| Wagering.FirstNamedUnique | main_final.py:301-305 | at most one entry is the first one in ledger order with a given username |
| Wagering.RoundExamples | main_final.py:317-363 | a balance of 1000 becomes 1175 in the worked round; a stake of 100 on a balance of 50 is refused |
| Wagering.Ledger.constructor | main_final.py:230 | the ledger starts empty |
| Wagering.Ledger.EnsureEntry | main_final.py:314-315 | a missing entry is created with 1000 and the username and appended to the ledger order; an existing entry, username included, is kept |
| Wagering.Ledger.Balance | main_final.py:281-286 | `/balance` makes the entry if absent and reports the balance, 1000 for a new user |
| Wagering.Ledger.FindByUsername | main_final.py:301-306 | finds nothing iff no entry has the username; otherwise finds the first such entry in ledger order |
| Wagering.Ledger.Credit | main_final.py:288-308 | a non-admin caller or a wrong word count changes nothing; a missing mention or unreadable amount fails; a well-formed command credits the signed amount to the first entry with the username iff one exists, and otherwise reports it not found; nothing else changes |
| Wagering.Ledger.Settle | main_final.py:310-367 | `/baccarat` makes the entry if absent, then the balance becomes the round's result on the parsed wager and dealt cards; only that entry's balance changes |
| Wagering.Ledger.SettleBets | main_final.py:317-363 | a refused round leaves every balance as it was; a played one sets the caller's balance to old − stake + payout |
| Sessions.Requested | main_final.py:147-149 | the caller's entry becomes PENDING and its time becomes now; every other entry is kept |
| Sessions.Paired | main_final.py:164-167 | the caller points at the admin and the admin at the caller, both times become now; every other entry is kept |
| Sessions.Relayed | main_final.py:173-175 | no pairing changes; the caller's and the partner's times become now; every other time is kept |
| Sessions.Exited | main_final.py:186-192 | the caller's entries are gone, and so are the partner's when a true partner is stored; nothing is added and what remains is unchanged |
| Sessions.Truthy | main_final.py:83 | no contract: Python's truth value of a stored session, false only for the partner id 0; used by Sessions.SessionAction (line 173) and Sessions.ExitPartner (line 190), whose ensures state its effect |
| Sessions.Expired | main_final.py:82 | no contract: the ids whose time is strictly more than the timeout ago; Sessions.SweepExact states exactly which ids survive |
| Sessions.Swept | main_final.py:79-86 | no time left is older than the timeout; nothing is added and what remains is unchanged |
| Sessions.Dispatch | main_final.py:141-180 | the language and forwarding buttons win over any session state; the developer listing is taken exactly for the admin's developer button; every other text, including the developer button from anyone but the admin, is decided by the session state |
| Sessions.SessionAction | main_final.py:163-180 | a non-menu text pairs exactly when the caller is PENDING, relays exactly when the caller holds a true partner id (to that partner), and is unrecognised otherwise |
| Sessions.AfterAction | main_final.py:147-175 | no contract: the maps after each action (request, pairing, relay; menu-only actions change nothing); Sessions.SessionRegistry.OnText and OnSessionText tie the method's new state to it |
| Sessions.AfterText | main_final.py:141-180 | no contract: the maps after a text, the transition of its dispatched action; Sessions.SessionRegistry.OnText ensures the registry's new state equals it |
| Sessions.ExitPartner | main_final.py:188-191 | the exit also removes a partner exactly when the caller is paired with a true (non-zero) id |
| Sessions.StampedKept | main_final.py:79-199 | every transition keeps each session entry paired with a last-activity time |
| Sessions.IdleSessionSwept | main_final.py:79-86 | a session idle for more than 300 seconds does not survive the sweep |
| Sessions.SweepExact | main_final.py:79-86 | an id survives the sweep, unchanged, exactly when its time is at most 300 seconds old |
| Sessions.SweepIdempotent | main_final.py:79-86 | sweeping twice at the same time changes nothing more |
| Sessions.RelayedSurvivesSweep | main_final.py:173-175 | a relayed session survives every sweep within 300 seconds |
| Sessions.ExitIdempotent | main_final.py:186-192 | a second exit is a no-op |
| Sessions.ExitFrame | main_final.py:186-192 | an exit leaves every id other than the caller and its partner untouched |
| Sessions.PendingExitRemovesCallerOnly | main_final.py:188-191 | an exit from PENDING removes only the caller's entries |
| Sessions.ExitFromEitherSide | main_final.py:186-192 | in a mutual pairing either side's exit removes both, with the same result |
| Sessions.RelayBothWays | main_final.py:163-178 | in a mutual pairing with the admin, a non-menu text from either side is relayed to the other |
| Sessions.RelayKeepsPairing | main_final.py:173-178 | a relay keeps every pairing and refreshes exactly the two times |
| Sessions.MenuBeforeSession | main_final.py:141-145 | the language button changes no session, whatever the caller's state |
| Sessions.PairKeepsSymmetry | main_final.py:164-167 | pairing with an unpaired admin keeps every pairing mutual |
| Sessions.ExitKeepsSymmetry | main_final.py:186-192 | an exit keeps every pairing mutual when no chat has id 0 |
| Sessions.RequestWhilePairedBreaksSymmetry | main_final.py:147-149 | the forwarding button pressed while paired leaves the old partner pointing at the caller |
| Sessions.SecondPairingStrandsFirst | main_final.py:164-167 | a second chat pairing with a busy admin takes over the admin's link, while the first chat's texts still go to the admin |
| Sessions.SessionRegistry.constructor | main_final.py:75-76 | both maps start empty |
| Sessions.SessionRegistry.RequestForward | main_final.py:147-151 | only the caller's entry (PENDING) and its time change |
| Sessions.SessionRegistry.OnText | main_final.py:133-180 | the branch taken is the menu dispatch, and the maps become the matching transition |
| Sessions.SessionRegistry.OnSessionText | main_final.py:163-180 | the session branch of `on_text`: the action is the session action of the old maps, and the maps become its transition |
| Sessions.SessionRegistry.Exit | main_final.py:184-199 | the maps become the exit transition, and the partner told is exactly the removed partner |
| Sessions.SessionRegistry.Sweep | main_final.py:79-86 | the maps become the sweep transition, and the timed-out ids reported are the expired ids whose session was true |

## Left out

- The heartbeat, the watchdog, `os._exit` and the aiogram start and stop hooks are timers and process control.
- The Flask webhook, the Telegram transport, keyboards, reply texts and the `__main__` launch are I/O. The baccarat handlers are registered after the blocking `app.run` call; that script ordering is not modelled.
- The SQLite profile upsert (`record_message`) and the developer user listing use a database. The listing is only a `DeveloperListing` action.
- The sweep runs on a `BackgroundScheduler` thread. Here `Sweep` is a sequential method, and interleaving with the handlers is not modelled.
- `random.randint` in `deal_cards` is replaced by four card inputs in 1..9.
- Baccarat.WinGain: the float products `amount * 0.95`, `* 0.54` and `* 1.5` are the exact fractions 95/100, 54/100 and 3/2 truncated. IEEE rounding for very large stakes is not modelled.
- Text.ParseInt: accepts only an optional sign and ASCII digits. Python's `int()` also accepts underscores between digits and non-ASCII decimal digits.
- Wagering.Ledger.Credit: the mention is given as its text (or its absence), not cut out of the message by entity offset. The admin id is a constructor argument, not read from the config module, which is not part of this model. The `str()` comparison is integer equality.
- Sessions: time is a whole number of seconds. `datetime.utcnow()` is a parameter `now`.
- Baccarat.ComputePayout: walks the kinds in a fixed order rather than the wager's insertion order. The payout is a sum, so only the order of reply lines would differ, and reply texts are not modelled.
- Sessions.SessionRegistry.Exit: after an exit from PENDING, the source sends a notice to the string "PENDING" as if it were a chat. That send fails as I/O and is not modelled; the maps are changed before it.
- Sessions.SessionRegistry.Sweep: assumes every timeout notice is delivered. `cleanup_sessions` has no exception handler. If a notice fails, the loop stops at that id with its session already removed and its time kept. The ids after it in the snapshot's order are not swept until the next run. That order, the dict's, is not modelled, so the partial result is not stated.
- Python truth values: a partner id of 0 is false. The relay, exit and sweep branches follow that.
