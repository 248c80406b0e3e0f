# A verified model of the game server's state

This project models the parts of the server that keep state consistent: the items and their weights, the
formats in which players, houses and maps are stored, money and the market, the timers and queues, the memory of
walkable tiles, conditions and their effects, areas of effect and the trade between players. Everything that
sends to clients, runs scripts or talks to the database server is absent; database tables are sequences of rows
or maps.

| file | what it models |
|---|---|
| `ContainerForest.dfy` | items and containers as linked objects, with the weight every container remembers |
| `Options.dfy`, `Trees.dfy`, `ContainerIteration.dfy` | missing values; walking nested containers breadth first |
| `Stacks.dfy`, `Money.dfy` | stacks of at most 100, adding and moving items, paying and giving change |
| `ItemTypes.dfy` | the types items are made of again when they are loaded |
| `PlayerItems.dfy` | the item tables of a player, written and read back |
| `OtbLoader.dfy`, `OtbParser.dfy` | the nested, escaped node format of map and item files |
| `PropStreams.dfy`, `ConditionCodec.dfy`, `ConditionStream.dfy` | conditions as a tagged stream of bytes |
| `MapItems.dfy` | the items of houses as a stream of bytes |
| `MarketGoods.dfy`, `Market.dfy`, `MarketRuns.dfy` | the market: offers, escrow, fees, expiry in its two steps, and whole runs of all these |
| `DatabaseTasks.dfy` | the database task queue with its worker thread |
| `DecayWheel.dfy` | the four buckets of decaying items |
| `WalkCache.dfy` | a monster's memory of the walkable tiles around it |
| `ConditionLedger.dfy`, `DamageList.dfy` | conditions in effect, and the hits of a damage condition |
| `AreaCombat.dfy` | areas of effect and their turned and mirrored images |
| `TradeProtocol.dfy` | the trade between two players |

Methods follow the program's loops and updates in place. Each is proved against a function or a predicate, and
the lemmas say what those mean. Seven things the code does differ from what its surroundings suggest:

- An expired offer is worked off with the amount that an earlier query read. If part of the offer was served in
  between, its owner is paid for that part again: gold or goods are made (`Market.ExpiryCanMakeGold`,
  `Market.ExpiryCanMakeGoods`). `Market.ProcessedExactly` says when a row conserves both, and
  `MarketRuns.RunExactly` when whole runs do.
- An expired sell offer is deleted even where its goods cannot be returned; the goods are then gone
  (`Market.MarketLedger.ProcessRow`).
- Stored items are made again from their type, and some types are made as others: a stealth ring that is worn comes
  back as one that is not (`PlayerItems.WornRing`), and items of unknown types do not come back.
  `PlayerItems.RoundTripExactly` says when a player gets back the very items that were saved.
- Of a stored house item whose type is no longer known only the type is read; what follows is then read out of step,
  and other items can be lost with it (`MapItems.UnknownTakesOthers`). `MapItems.RoundTripExactly` says when all come
  back.
- From 4294970000 gold on, an amount is mostly not paid out as it is, because products and counts leave their widths.
  It is when the product of the crystal coins wraps around a multiple of 25 times and gold coins are left over
  (`Money.PaidExactly`).
- A step south-east or south-west shifts the walk cache wrongly, because the number of rows to move is never
  negative where the branches for it expect it to be. `WalkCache.SouthDiagonalExactly` says when that shows.
- The centre of a mirrored or flipped area is computed from the wrong side of the matrix, which matters exactly for
  areas that are not square (`AreaCombat.MirrorExactly`, `AreaCombat.FlipExactly`, `AreaCombat.ReflectExactly`).

`dafny verify dfyconfig.toml` checks the whole project.

## Model

| member | source | states |
|---|---|---|
| ContainerForest.Item.UpdateItemWeight | src/container.cpp:148-154 | passing a difference up the parents restores every remembered weight that the change below had put off by it, in 32-bit arithmetic, and ends because parents lie strictly higher |
| ContainerForest.Item.QueryAdd | src/container.cpp:268-328 | an item may enter exactly if the container is open, the item can be picked up, does not itself hold the container, and (unless limits are waived) no inbox is above and there is room; each refusal has its reason |
| ContainerForest.Item.TryAdd | src/container.cpp:268-328 | an item without a parent is added exactly if the query allows it; no cycle of parents closes, and the weights stay right |
| ContainerForest.Item.MoveThing | src/game.cpp:1051-1224 | a listed item, queried while it still has its parent, moves exactly if the query allows it: no cycle closes, all remembered weights stay right, and the item is at the front of the other container unless the index is beyond its capacity; otherwise nothing changes |
| ContainerForest.Item.TakeOut | src/container.cpp:558-591 | a whole item leaves, all others stay in order, and a container that was not below it is not below it afterwards |
| ContainerForest.Item.AddThing | src/container.cpp:479-498 | the item comes to the front unless the index is beyond the capacity, and the remembered weight grows by exactly its weight; all remembered weights stay right |
| ContainerForest.Item.AddItemBack | src/container.cpp:500-509 | the item comes to the back, and the remembered weight grows by exactly its weight; all remembered weights stay right |
| ContainerForest.Item.InternalAddThing | src/container.cpp:674-684 | front insertion without the capacity test, with the weight of exactly that item; all remembered weights stay right |
| ContainerForest.Item.UpdateThing | src/container.cpp:511-532 | an item of the container changes type and count, any other stays, and the remembered weight changes by the difference; all remembered weights stay right |
| ContainerForest.Item.ReplaceThing | src/container.cpp:534-556 | exchange at an index: only the two items change parents; all remembered weights stay right |
| ContainerForest.Item.RemoveThing | src/container.cpp:558-591 | part of a stack or the whole item goes, exactly the rest stays in order; n of more pieces take n units off the remembered weight, a whole item its weight; all remembered weights stay right |
| ContainerForest.Item.GetThingIndex | src/container.cpp:593-603 | the first position of the item, -1 exactly if it is not there |
| ContainerForest.CacheIsTrue | src/container.cpp:148-159 | in every forest that the operations leave, each remembered weight is the recursive sum of the weights below, modulo 2^32 and exactly where the sum fits |
| ContainerForest.JoinedWeighTheSame | src/item.cpp:811-818 | two stacks of a kind weigh together, in 32 bits, what the joined stack weighs |
| ContainerForest.SingleWeighsOneUnit | src/item.cpp:811-818 | one piece, an empty stack and whatever does not stack weigh one unit |
| Trees.BfsVisitsAll | src/container.cpp:693-726 | the queue visits every node as often as walking depth first, so no item twice and none never |
| Trees.BfsByGenerations | src/container.cpp:693-726 | the queue yields a whole generation before the next |
| ContainerIteration.ContainerIterator.Advance | src/container.cpp:708-726 | one step takes exactly the first item of what was ahead, which is the breadth-first sequence from the start |
| ContainerIteration.ContentsExact | src/container.cpp:693-726 | the iterator meets an item exactly once if it is anywhere below the container, otherwise never |
| ContainerIteration.GetItemHoldingCount | src/container.cpp:201-208 | the count is the number of items at every depth |
| ContainerIteration.IsHoldingItem | src/container.cpp:210-218 | true exactly if a chain of parents leads from the item to the container |
| Stacks.Container.QueryDestination | src/container.cpp:405-472 | the first equal stack with room, else the item at the index, with out-of-range indices turned into "anywhere"; the index that means the parent names no item |
| Stacks.Container.QueryMaxCount | src/container.cpp:330-381 | a hundred for each free slot and the room in equal stacks, the latter only in an open container and for what can be picked up; refused exactly if that is less than asked |
| Stacks.Container.InternalAddItem | src/game.cpp:1233-1308 | for any count that fits a byte: succeeds exactly if free slots and equal stacks have room for all (a free slot is needed for the index that means the parent); then the pieces fill the stacks with room, the first of them first, and only what is left is a new stack in front; each kind's total grows by exactly that, and otherwise nothing changes |
| Stacks.NewStackExactly | src/game.cpp:1265-1300 | a new stack appears if and only if the stacks there are have no room for all pieces |
| Stacks.FilledInOrder | src/container.cpp:444-456 | a stack gets pieces only when all stacks of its kind before it are full |
| Stacks.InternalMoveItem | src/game.cpp:1051-1224 | moves the full amount or exactly what the destination takes, or nothing; totals over both containers are kept for every kind, stacks stay at most 100, the destination within capacity |
| Stacks.QueryMove | src/game.cpp:1051-1136 | how much may move is exactly what the destination takes at that index, the stack it joins, if any, is one that takes it, and each refusal has its reason |
| Stacks.MoveFacts | src/game.cpp:1137-1190 | taking from one list and joining to another conserves every kind and keeps stacks in range |
| Money.Collect | src/game.cpp:1435-1479 | lists exactly the coins, ascending in worth, with the sum of their worth |
| Money.CrystalsExactly | src/game.cpp:1508-1509 | what is left after the crystal coins is the amount modulo 10000 if and only if the 32-bit product does not wrap |
| Money.PaidExactly | src/game.cpp:1502-1543 | an amount is paid out exactly if and only if the crystal coins fit 32 bits and their product with 10000 wraps around never, or a multiple of 25 times while odd gold coins are left over |
| Money.FewestCoins | src/game.cpp:1502-1543 | below the bound an amount is paid in money / 10000 crystal, the hundreds of the rest in platinum and what is left in gold coins |
| Money.Purse.Deliver | src/game.cpp:1510-1518 | a stack of coins joins the container exactly if it fits there, and lies on the ground exactly if it does not |
| Money.Purse.AddMoney | src/game.cpp:1502-1543 | for every amount the coins of each kind grow by what 32, 16 and 8 bits leave of it, the money by the amount itself if and only if `PaidExactly` says so, and no coin that was there gets lost; nothing is put on the ground while the container has a slot for every stack |
| Money.Purse.Finish | src/game.cpp:1485-1498 | the last stack, whole or with change, pays exactly what was still open |
| Money.Purse.RemoveMoney | src/game.cpp:1423-1500 | pays if and only if the coins cover the price; then the wealth falls by exactly the price; whole stacks worth less than the price are gone, with one more stack they cover it, none of them is worth more than a stack that stays, and all others stay; change goes to the ground only without two free slots; otherwise nothing changes |
| PlayerItems.SaveItems | src/iologindata.cpp:695-753 | the loop over the queue writes the rows of the specification: roots first, then every container's items |
| PlayerItems.DrainRebuilds | src/iologindata.cpp:726-751 | every container in the queue is fully contained in the rows that draining writes |
| PlayerItems.PlayerLoader.LoadItems | src/iologindata.cpp:1127-1151 | the table holds exactly the rows of which an item can be made, with the type it is made as |
| PlayerItems.PlayerLoader.InsertAll | src/iologindata.cpp:536-553 | going down the ids and inserting in front builds, for each parent, its rows in ascending order |
| PlayerItems.RoundTrip | src/iologindata.cpp:536-553 | every slot, chest and box shows the trees that were saved from it, in the same order, made again: an item of a renamed type as its other type, one of an unknown type not at all and its contents with it |
| PlayerItems.RoundTripExactly | src/iologindata.cpp:536-553 | the very same trees come back if and only if every item at any depth is of a known type that is not made as another and is still a container if it was one |
| PlayerItems.SameTrees | src/item.cpp:41-93 | making items again changes nothing if and only if all of them stay as they are |
| PlayerItems.WornRing | src/item.cpp:41-93 | a stealth ring that is worn when it is saved comes back as another type |
| PlayerItems.RewardsSplit | src/iologindata.cpp:601-638 | the loops over rewards tell roots from contents exactly if there are fewer than a hundred rewards |
| PlayerItems.PlayerLoader.RewardLoop | src/iologindata.cpp:601-616 | the first loop takes the rows whose parents are below a hundred, up to the first that is not |
| PlayerItems.PlayerLoader.RewardContents | src/iologindata.cpp:617-638 | the second loop places exactly the rows behind the last root |
| PlayerItems.RewardRoundTrip | src/iologindata.cpp:601-638 | rewards of known types come back with all their contents if and only if there are fewer than a hundred |
| PlayerItems.InboxLimit | src/iologindata.cpp:645-668 | the inbox comes back complete if and only if it has at most 5000 rows |
| OtbLoader.LoadsWhatIsSpelled | src/fileloader.cpp:53-105 | every node tree, however its properties are escaped, is read with its shape, types and property ranges |
| OtbLoader.LoadsExactlyTheGrammar | src/fileloader.cpp:53-105 | a file is accepted if and only if it spells a balanced node tree, and the tree read is the one it spells |
| OtbLoader.RoundTrip | src/fileloader.cpp:53-122 | writing a tree with escapes and reading it gives the same types, properties and children |
| OtbLoader.LoadedWholeTokens | src/fileloader.cpp:64-99 | no property range of an accepted file ends inside an escape pair |
| OtbParser.Loader.Open | src/fileloader.cpp:30-43 | a loader exists exactly for files longer than the smallest with a wildcard or the accepted identifier |
| OtbParser.Loader.ParseTree | src/fileloader.cpp:53-105 | the loop with its stack of node pointers builds exactly the specified tree or fails exactly with it; the stack is always the rightmost path |
| OtbParser.PushChild | src/fileloader.cpp:66-80 | a new last child extends the rightmost path |
| OtbParser.PopNode | src/fileloader.cpp:81-88 | closing a node leaves the path of the others |
| OtbParser.Loader.GetProps | src/fileloader.cpp:107-122 | the unescaped properties, and false exactly if there are none |
| ConditionCodec.ConditionRoundTrip | src/condition.cpp:51-127 | a persistent condition of any class is read back from exactly its own bytes, whatever follows |
| ConditionCodec.RoundTrip | src/iologindata.cpp:363-374 | a list of conditions comes back as its persistent members in reverse order, every stored field the same |
| ConditionCodec.PersistentExactly | src/condition.cpp:263-274 | kept are exactly the conditions that will end and come from no slot of the equipment |
| ConditionCodec.ClassOfType | src/condition.cpp:146-202 | the first 28 bits are the types, each with its class, and every new condition is neutral |
| ConditionCodec.OnlyBitsAreTypes | src/condition.cpp:146-202 | no other number is a type |
| ConditionCodec.TicksAreTheSum | src/condition.cpp:930-957 | the ticks of a damage condition that is read are the sum of its intervals |
| ConditionCodec.ReadsWhatIsWritten | src/condition.cpp:51-60 | a row of properties up to the end tag is taken in completely and nothing after it |
| ConditionCodec.AttributesApplied | src/condition.cpp:368-391 | thirteen skills and four stats return to their places |
| ConditionCodec.DamageApplied | src/condition.cpp:930-973 | the damage list returns in order, after the flag and the periodic damage |
| ConditionStream.ConditionObject.Serialize | src/condition.cpp:111-127 | appends the bytes of the condition and its class |
| ConditionStream.ConditionObject.UnserializeProp | src/condition.cpp:62-109 | takes in one property, or fails for an unknown tag or missing bytes |
| ConditionStream.CreateCondition | src/condition.cpp:204-253 | makes a condition exactly where the five leading properties and a known type are there |
| ConditionStream.SaveConditions | src/iologindata.cpp:777-784 | writes the persistent conditions, each with its end tag |
| ConditionStream.LoadConditions | src/iologindata.cpp:363-374 | the loop reads the list of the specification, also from damaged streams |
| MapItems.RoundTrip | src/iomapserialize.cpp:116-165 | loading what was saved, all types known, gives the same items at every depth in the same order and leaves the stream at what follows |
| MapItems.RoundTripExactly | src/iomapserialize.cpp:116-165 | where types may have gone since the save, all items come back and the stream is left at what follows if and only if every type at every depth is still known |
| MapItems.UnknownTakesOthers | src/iomapserialize.cpp:134-165 | of two saved items one is of a type that is gone, and neither comes back |
| MapItems.SameItems | src/item.cpp:41-93 | the very same items come back if and only if none is of a type that is created as another |
| ItemTypes.AliasExactly | src/item.cpp:41-93 | the types that are made as others are these thirteen, and what they are made as is made as itself |
| MapItems.AttrsRoundTrip | src/item.cpp:652-664 | attributes are read back one by one, each with its own bytes |
| MapItems.SaveItem | src/iomapserialize.cpp:217-235 | appends an item with its contents from back to front |
| MapItems.LoadOneItem | src/iomapserialize.cpp:134-165 | reads one item with its contents, or fails, as specified for any bytes |
| MapItems.LoadContainer | src/iomapserialize.cpp:116-132 | reads the announced number of items and the end mark, each item in front |
| MarketGoods.GetMarketItemList | src/game.cpp:6019-6058 | finds a list exactly if the locker, inbox included, offers enough: the goods met first, breadth first, none twice and no more than needed, so the 16-bit counter does not wrap |
| MarketGoods.TakeStacks | src/game.cpp:5287-5296 | takes exactly the amount from one item of the list after the other, of plain goods of the ware alone, and moves nothing else |
| MarketGoods.NewGoodsAdd | src/item.cpp:1857-1878 | new goods at the front of the inbox are all on offer, beside exactly what was |
| Market.MarketLedger.CreateOffer | src/game.cpp:5210-5326 | succeeds exactly if type, amount, price and number of offers are allowed and balance or goods suffice; then balance, locker and offers change by exactly price, fee and amount, gold and goods are kept; otherwise nothing changes |
| Market.OffersCounted | src/iomarket.cpp:210-221 | every offer that is entered counts as one of its player, and nobody has one to begin with |
| Market.MarketLedger.CancelOffer | src/game.cpp:5328-5390 | succeeds exactly for the owner of an offer that is still there and, if it sells, is of a known type; its gold returns to him, or its goods as new plain items in the fewest stacks in front of his inbox, nothing else changes |
| Market.MarketLedger.Deliver | src/game.cpp:5357-5380 | new plain items of the ware, in the fewest stacks of at most 100 or one by one, lie in front of what was in the inbox |
| Market.GainedOffers | src/game.cpp:5357-5380 | whatever a player gains is on offer in his locker, and no more of any other ware |
| Market.CancelledSellsAgain | src/game.cpp:5210-5390 | after a sell offer is cancelled, an offer of the same goods fails for no lack of goods |
| Market.BoughtSellsOn | src/game.cpp:5392-5592 | what is bought is on offer in the buyer's locker |
| Market.MarketLedger.AcceptOffer | src/game.cpp:5392-5592 | succeeds exactly if the offer, of a known type, has that much left and the taker the gold, or the goods for an owner who can be loaded, also for an offer already read as expired; both sides get exactly their part, the offer shrinks by it, gold and goods are kept |
| Market.MarketLedger.SelectExpired | src/iomarket.cpp:194-200 | remembers exactly the offers that are expired, as they are at that moment, and changes nothing else |
| Market.MarketLedger.ProcessRow | src/iomarket.cpp:120-192 | an offer that is still there goes, and its owner gets what the remembered row says, or nothing where type or owner are unknown; nothing happens if it is gone |
| Market.MarketLedger.ProcessExpired | src/iomarket.cpp:120-192 | the rows of the oldest result are worked off one after the other, each as it says; gold and goods change by exactly what they make or lose |
| Market.ProcessedExactly | src/iomarket.cpp:120-192 | working off a row conserves gold and goods if and only if its offer is gone, or still has the amount that was read and its goods, if any, can be returned |
| Market.ExpiryCanMakeGold | src/iomarket.cpp:120-205 | a buy offer of 10 is read as expired, 4 of it are served, and the row still pays back 10: there is more gold than before |
| Market.ExpiryCanMakeGoods | src/iomarket.cpp:120-205 | the same for a sell offer: there are more goods than before |
| Market.WorkedOffMakes | src/iomarket.cpp:120-192 | the rows of a result make exactly what their slips say: per row the amount read less the amount still there |
| MarketRuns.Trade | src/game.cpp:5210-5592 | for any sequence of actions the market goes through a run of just these actions, each of which succeeds exactly when it may and does exactly what it should; what the run conserves is said by its rows, and all of it without a step of expiry |
| MarketRuns.RunMakes | src/game.cpp:5210-5592 | over a run gold and goods change by exactly what the rows worked off in it make or lose |
| MarketRuns.RunExactly | src/game.cpp:5210-5592 | over a run gold is constant if and only if every row of a buy offer that finds its offer finds the amount it was read with; gold and goods are, while none are lost, if and only if every row does |
| MarketRuns.NoExpiryConserves | src/game.cpp:5210-5592 | a run without a step of expiry conserves gold and the goods of every ware |
| Market.BalancesFit | src/game.cpp:5300-5345 | no balance leaves 64 bits while all gold fits |
| DatabaseTasks.StepKeeps | src/databasetasks.cpp:34-105 | every step of any thread keeps: one holder of the lock, no task lost or run twice, no lost wake-up while running, nothing queued after the last flush |
| DatabaseTasks.RunSafe | src/databasetasks.cpp:34-105 | these hold in every state of every run |
| DatabaseTasks.EveryCallAccepted | src/databasetasks.cpp:54-69 | over every run the tasks accepted are exactly the calls that pass while the queue runs, and each is queued, in one hand or run exactly once |
| DatabaseTasks.OneCallOneTask | src/databasetasks.cpp:54-69 | such a call puts one task at the end and owes a notification exactly if the queue was empty; every other step adds nothing |
| DatabaseTasks.FlushEndsEmpty | src/databasetasks.cpp:86-96 | a flush ends only when it has seen the queue empty |
| DatabaseTasks.AfterShutdown | src/databasetasks.cpp:98-105 | after the flush of a shutdown the queue is empty for good, and each accepted task has run or is in a hand |
| DatabaseTasks.ShutdownCanMissTheWorker | src/databasetasks.cpp:34-52 | a run in which the worker goes to sleep after the shutdown and nobody will wake it |
| DatabaseTasks.SleepsAfterShutdown | src/databasetasks.cpp:34-52 | once shutdown is over the worker comes to rest by itself in at most three steps: it has left if it was at a place from which it tests the state again, and sleeps for good otherwise |
| DecayWheel.DelayIsClose | src/game.cpp:4555-4597 | counted from the tick of its placement, an item decays at most 874 ms early and 249 ms late |
| DecayWheel.FiresAfterDelay | src/game.cpp:4572-4592 | counting down over the turns of the wheel fires at the closed-form tick |
| DecayWheel.Wheel.StartDecay | src/game.cpp:4486-4504 | an item with time left waits, once; one without decays at once |
| DecayWheel.Wheel.Cleanup | src/game.cpp:4693-4701 | every waiting item gets into one bucket, due after exactly its delay |
| DecayWheel.Wheel.CheckDecay | src/game.cpp:4555-4597 | in a tick exactly the items due then decay, each once; all others keep the tick at which they are due |
| WalkCache.StepExact | src/creature.cpp:494-573 | after a step in any direction but two the shifted memory is what a full lookup would give |
| WalkCache.SouthDiagonalExactly | src/creature.cpp:494-573 | after a step south-east or south-west it is so if and only if, column by column, the two outer rows agree with what is known of the tile beside, wherever on the 16-bit map |
| WalkCache.EdgesRightInland | src/creature.cpp:494-573 | at least 12 tiles from the edge of the map that means that the tiles of each outer row are all alike |
| WalkCache.SouthEastCanFail | src/creature.cpp:494-573 | a map with one blocked tile on which the memory is wrong |
| WalkCache.StaysExact | src/creature.cpp:294-356 | over every run of such steps, teleports and tile changes the memory stays right |
| WalkCache.AnswersAsTheMap | src/creature.cpp:327-356 | the answer is that of a lookup on the map, for every position |
| WalkCache.Creature.OnCreatureMove | src/creature.cpp:494-573 | the shifts of rows and columns in place do what the specification of a step says |
| ConditionLedger.Creature.AddCondition | src/creature.cpp:1168-1197 | at most one condition of each key: a new one is started at the end of the list, one of a key in effect gives that one its time and effect; speed, skills and stats stay the sum over the active conditions and what comes from elsewhere |
| ConditionLedger.Creature.MergeInto | src/condition.cpp:1372-1403 | a condition merged into one of its key replaces that one's time and effect, started after the old effect has ended, unless the one in effect lasts longer |
| ConditionLedger.LongerCounts | src/condition.cpp:281-296 | of two conditions of a key the one that lasts longer counts, and the new one where both end together |
| ConditionLedger.Creature.Apply | src/condition.cpp:393-474 | a starting condition adds exactly its share, with the formula's speed and with percentages of skills, health, mana and magic level turned into points |
| ConditionLedger.PartIsPercent | src/condition.cpp:415-455 | percentages count from a hundred, rounded towards zero: nothing at 100, the value at 200, its negative at 0, growing with the percentage |
| ConditionLedger.Creature.EndCondition | src/condition.cpp:481-511 | an ending condition takes exactly its share away |
| ConditionLedger.Creature.RemoveConditions | src/creature.cpp:1212-1264 | exactly the matching conditions end, unless a paralysis has to wait; the sums stay right |
| ConditionLedger.WithoutExactly | src/creature.cpp:1212-1264 | what stays is exactly what is of another type, or of another id where one is given |
| ConditionLedger.InEffectExactly | src/creature.cpp:1342-1360 | a type is in effect from when a condition of it is added until its end time has passed or the type is removed |
| ConditionLedger.Creature.ExecuteConditions | src/creature.cpp:1322-1340 | exactly the conditions whose time is over end; the sums stay right |
| ConditionLedger.TimeRunsDown | src/condition.cpp:135-144 | time runs down by exactly the interval and not below nothing, two intervals are like their sum, and a condition without end keeps none |
| ConditionLedger.AllEnded | src/creature.cpp:1212-1340 | when the last condition has ended, speed, skills and stats are what they would be without any |
| ConditionLedger.BalancedInstead | src/condition.cpp:344-366 | exchanging one condition for another changes the sum by the difference of their shares |
| ConditionLedger.BalancedWithout | src/creature.cpp:1280-1300 | without a condition the sum is less by its share |
| DamageList.GenerateDamageList | src/condition.cpp:1259-1277 | the hits fall without a gap to 1 and deal at least the amount, exactly the amount if and only if it is at least start * (start + 1) / 2; from start squared on every partial sum is within half a hit of its target |
| DamageList.CloserIff | src/condition.cpp:1269-1275 | the quotient test adds a hit exactly if more than half of it is missing |
| DamageList.RoomBelow | src/condition.cpp:1265-1276 | extra hits always leave room for one hit of every smaller value |
| AreaCombat.CreateArea | src/combat.cpp:1222-1253 | the matrix has the listed cells, and its centre is the last mark, even one behind the matrix |
| AreaCombat.RotateArea | src/combat.cpp:1171-1220 | all writes are in bounds, and the output covers exactly the turned offsets |
| AreaCombat.MirrorArea | src/combat.cpp:1153-1161 | the output covers the mirrored offsets, shifted by columns less rows |
| AreaCombat.FlipArea | src/combat.cpp:1162-1170 | the output covers the flipped offsets, shifted by rows less columns |
| AreaCombat.MirrorExactly | src/combat.cpp:1153-1161 | the image is an exact mirror image if and only if the matrix is square or empty |
| AreaCombat.FlipExactly | src/combat.cpp:1162-1170 | likewise for the flipped image |
| AreaCombat.ReflectExactly | src/combat.cpp:1350-1378 | likewise for the south-eastern area, the point reflection that flipping and mirroring make |
| AreaCombat.RowOfTwo | src/combat.cpp:1350-1378 | for a row of two cells none of the three images is exact |
| AreaCombat.AreaCombat.SetupArea | src/combat.cpp:1255-1278 | east, south and west are the exact turns of north |
| AreaCombat.AreaCombat.SetupExtArea | src/combat.cpp:1350-1378 | the diagonal areas are the mirrored north-western one, the south-eastern its point reflection, up to that shift |
| AreaCombat.AreaCombat.GetArea | src/combat.h:204-237 | the direction is that of the offset, with the sideways ones first |
| AreaCombat.AimTurnsDirection | src/combat.h:204-237 | turning or mirroring any aim turns or mirrors the direction chosen; without diagonal areas that holds along the axes, and all other aims go to the side |
| AreaCombat.AimTurnsArea | src/combat.h:204-237 | turning an aim along an axis turns the area covered |
| TradeProtocol.Game.InternalStartTrade | src/game.cpp:2634-2665 | starts exactly if both are free, or in answer to the partner's offer; partners stay mutual and offers listed |
| TradeProtocol.Game.PlayerAcceptTrade | src/game.cpp:2667-2702 | the items begin to change hands exactly if both sides have accepted and nothing forbids it |
| TradeProtocol.Game.InternalCloseTrade | src/game.cpp:2865-2905 | frees both sides and withdraws both offers, but does nothing while items change hands |
| TradeProtocol.Game.FinishTransfer | src/game.cpp:2756-2764 | both players are free again |
| TradeProtocol.PartnersBelong | src/game.cpp:2634-2905 | partnership is mutual, nobody has two partners, and no item is on offer twice |

## Left out

- Money.Collect: the bags below the container are one list of coins in the order of the search, whose breadth-first walk is the subject of `ContainerIteration.dfy`.
- Money.Purse.RemoveMoney: the same list of coins; the player's slots as a destination are not modelled, and coins carry no attributes.
- Stacks.Container.QueryDestination: for an index that names no container, so that no item is sent on into a nested one; the parent, to which one index refers, is not modelled.
- Stacks.Container.QueryMaxCount: the branch for waived limits and pagination is absent.
- Stacks.Container.InternalAddItem: for a container without pagination and without a parent; flags, the test mode and the branch that lets a reward container exceed its room are absent.
- Stacks.QueryMove: the same containers; the exchange that player slots ask for is absent.
- Stacks.InternalMoveItem: between two different such containers, without the exchange of items that player slots ask for and without trade items.
- ContainerForest.Item.ReplaceThing: the replaced item loses its parent before the difference is passed up and not after, which no step in between looks at.
- ContainerForest.Item.QueryAdd: parents that are tiles or players count as none; the query of the topmost container is asked with the flag that always agrees.
- ContainerForest.Item.TryAdd: for an item without a parent; an item that has one moves by `ContainerForest.Item.MoveThing`.
- ContainerForest.Item.MoveThing: whole items between containers; joining stacks is the subject of `Stacks.dfy`, the exchange of items is absent.
- MarketRuns.Trade: additions to an inbox succeed, as the code assumes; the fee is any value from 20 to 1000; statements of the database are single steps; Tibia coins, history rows and statistics are absent.
- Market.MarketLedger.CreateOffer: every player has one depot locker, where the program takes that of the depot used last; coins of the account are absent.
- Market.MarketLedger.SelectExpired: the rows are in the order of their ids, where the query asks for none.
- ConditionLedger.Creature.AddCondition: conditions without modifiers all merge by the general rule, also damage conditions, whose own rule touches no modifier; scripts called in between are absent.
- ConditionLedger.Creature.ExecuteConditions: the time of every condition runs by the general rule; what damage, regeneration, soul and light conditions do on top of it touches no modifier and is absent.
- ConditionLedger.Creature.Apply: percentages are taken with exact integers rounded towards zero.
- ConditionCodec.RoundTrip: for streams with more than thirteen skills or four stats, which no save writes, the code writes beyond its arrays; the model counts them as damaged. End times, percentages and inner counters are not stored by the program either.
- DamageList.GenerateDamageList: exact quotients in place of floating point, and products that stay within 32 bits.
- AreaCombat.RotateArea: sines and cosines of quarter turns as whole numbers, to which the program rounds; centres are signed where the program lets unsigned ones wrap in differences.
- AreaCombat.CreateArea: lists with a cell beyond what the matrix holds, for which the code would write outside of it, are excluded; the built-in cones and circles, whose lists always fill their matrix, are not modelled.
- AreaCombat.AreaCombat.SetupArea: the same lists are excluded, and those with a centre beyond the square of the longer side, for which turning would write outside of the new matrix.
- AreaCombat.AreaCombat.SetupExtArea: the same lists are excluded.
- MapItems.LoadOneItem: the branch for furniture that is part of the map, and what the attributes mean; a text longer than its length field can say is not written by the round trip.
- MapItems.RoundTripExactly: a type may be gone since the save, but one that is still known is taken to be the same.
- DecayWheel.Wheel.CheckDecay: what a decayed item turns into; a new item that decays in turn enters like any other.
- DatabaseTasks.StepKeeps: tasks are numbers and their statements are not executed; that the worker leaves after a shutdown is not claimed, since it need not.
- TradeProtocol.Game.PlayerAcceptTrade: whether both items could be moved is not modelled, nor is the fairness of an acceptance before the counter-offer.
- PlayerItems.RoundTrip: the count column and the attributes are part of the opaque information of an item, and the database returns the rows it was given.
- PlayerItems.RewardRoundTrip: a reward is identified by its row and not by its date, and the attributes of the reward container itself are opaque.
- OtbParser.Loader.ParseTree: the file is a sequence of bytes; the mapping of files into memory is not part of this model.
- Browse fields, paginated depots, player slots and tiles as containers; stack weights of such containers.
- Sockets, timers, scripts, spectators and messages, the text of database statements and transactions.
- Configuration, accounts, houses, bans, the store and the experience and combat formulas: thin branching or data.
