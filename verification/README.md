# Verified model of the LoRa hub firmware

A Dafny model of the hub firmware's hard core, and proofs about it:

- the regulatory airtime budget (a ring of sixty one-minute buckets) and its two spenders, the host command dispatcher and the packet forwarder with one budget per EU sub-band;
- LoRa time on air against the formula of section 6.1.4 of the SX126x datasheet, and against the register bytes the driver writes;
- the SX1262 driver over an SPI bus that may fail at any command, against a model of the chip;
- the MQTT bridge's correlation of downlinks and responses, as a state machine over all the tasks and channels involved;
- timed downlinks over the wrapping 32-bit microsecond counter;
- the hub protocol's frames, the incremental HTTP parser, the configuration across storage failures and reboots, the portal's update, and the forwarder's datagrams.

Where the source updates an object in place there is a class (`DutyCycleLimiter`, `GatewayForwarder`, `CommandDispatcher`, `Sx1262Driver`, `BridgeState`, `HubControl`, `PayloadReader`, `SliceWriter`). Each method is proved against a function on plain values, and statements about whole runs are proved of those functions. `dafny verify dfyconfig.toml` checks everything.

| file | what it models |
|---|---|
| `DutyCycle.dfy`, `Limiter.dfy` | the budget as a log and as a list by age, for any number of buckets; the ring of sixty that implements it |
| `FiringDelay.dfy`, `DownlinkOnAir.dfy` | what the budget still guarantees when packets go out later than they were charged |
| `DownlinkPolicy.dfy`, `Forwarder.dfy` | the forwarder's acceptance policy over up to four budgets |
| `Dispatch.dfy`, `Dispatcher.dfy` | the host dispatcher as functions; the dispatcher on the driver, and the radio task that serves it |
| `Airtime.dfy` | time on air |
| `Sx1262.dfy`, `Driver.dfy`, `EndToEnd.dfy` | the chip, the driver, and charged airtime against registers |
| `GatewayRadio.dfy`, `GatewayTask.dfy` | the gateway radio task around one downlink, and over a whole run |
| `Correlation.dfy`, `Bridge.dfy`, `BridgeTask.dfy` | the bridge as functions, as an object, and its task |
| `BridgeProtocol.dfy`, `BridgeHonesty.dfy`, `BridgeLag.dfy` | the protocol around it: conservation, what its answers are worth, what lag costs |
| `Scheduler.dfy` | downlink timing |
| `HubTypes.dfy`, `HubCodec.dfy`, `HubReader.dfy`, `HubWire.dfy` | hub protocol types, frames, in-place reader and encoder; the frames byte by byte |
| `Decimal.dfy`, `Http.dfy` | decimal text; HTTP parsing and the connection's read loop |
| `HubConfig.dfy`, `HubCtrl.dfy` | configuration and portal update; the control task |
| `Datagram.dfy`, `DatagramWriter.dfy`, `DatagramReader.dfy` | Semtech UDP datagrams; the server's reader of them |
| `Prelude.dfy`, `LoraTypes.dfy` | shared types |

## Where the code and its documentation part

- `src/lora/duty_cycle.rs:5-8` says the ring errs on the conservative side of a sliding hour. One of its sixty buckets is the partly elapsed head, so the code guarantees 59 minutes. The claims accepted `phase` ms into a minute all keep the hour if and only if `phase` is the minute's last millisecond (`DutyCycle.HourKeptIffEndOfMinute`); `HourCanHoldTwice` gives the runs that break it and `HourHoldsAtMostTwice` shows that twice the allowance is the most.
- `src/lora/airtime.rs:32` says the result is rounded up. The symbol time is truncated to a microsecond first, and the low-data-rate switch goes by the label, so that holds for all packets exactly at the labels 31, 62, 125, 250, 500 and 64 to 124, the last of which stand for 125 kHz (`Airtime.RoundedUpIff`).
- `src/lora/calibration.rs:33-36` calls the label in kHz close enough for the low-data-rate threshold. It is not at the labels 8, 16 and 63, which are rounded up past it at spreading factors 7, 8 and 10, nor at unlisted labels on the other side of it than the 125 kHz they stand for (`Airtime.LdroIsSlowSymbolsIff` says exactly where it is).
- `src/gateway/forwarder.rs:22-23` allows four sub-bands, but five lie inside the accepted range. Five requests are enough for the fifth to pass its allowance (`DownlinkPolicy.FifthBandPassesItsAllowance`), and from then on it sends whatever it is asked to (`FifthBandSendsEverything`); a set of bands is kept within its allowances by all runs confined to it if and only if it has at most four (`BandsAreKeptIffAtMostFour`).
- `configure` is not atomic. A change to a higher spreading factor that fails after its fourth command leaves the modem above what the dispatcher charges for (`EndToEnd.ChangeSpreadingFactor`), and the budget bounds what is on the air if and only if that is not the case (`Dispatch.AllowanceKeptIffNotSlower`).
- Downlinks are charged when they are accepted and may go out thirty seconds later, so on the air the 59 minutes shrink by that (`DownlinkOnAir.BandSafeOnAirIff`).
- `src/portal/http.rs:65` compares the body with the room after the headers and forgets the four bytes of the blank line: a request that ends one to four bytes past the buffer is never refused, only dropped (`Http.LongRequestOutcome`).
- The gateway task goes on when it cannot reconfigure for the uplink channel, and may listen with the downlink's configuration (`GatewayRadio.ServeDownlink` says exactly when).
- A response lost to lag is never accounted for by the bridge. It answers busy for ever if and only if four were lost (`BridgeLag.BusyForEverIffFourLost`); `EightMessagesLoseFour` is a run of twenty steps that gets there.
- A portal update with nothing but a WiFi password in it counts as empty (`HubConfig.UpdateRefusedIff`).
- A portal update that names a network without a password clears the password, and a password without a network is ignored (`HubConfig.UpdateIsMergeIff`). An update that is refused may already have stored its first commands (`HubConfig.UpdateStopsAtFirstRefused`, `RefusedUpdateStoresNetwork`).

## Model

| member | source | states |
|---|---|---|
| DutyCycle.AirtimeInAnyWindowIsWithinAllowance | src/lora/duty_cycle.rs:86-137 | for a ring of any number n of one-minute buckets, over every run of claims with nondecreasing times the accepted airtime in any closed n - 1 minutes is at most the allowance |
| DutyCycle.AirtimeInAny59MinutesIsWithinAllowance | src/lora/duty_cycle.rs:12-13 | with the code's sixty buckets: in any closed window of 3,540,000 ms |
| DutyCycle.SpentBetweenExactSums | src/lora/duty_cycle.rs:81-99 | at every call the spent total of an n-bucket ring lies between the exact sums of the log over the last n - 1 and the last n minutes |
| DutyCycle.NeverStricterThanExactWindow | src/lora/duty_cycle.rs:106-120 | in every reachable state, a claim an exact limiter over the ring's n minutes would admit on the same history is admitted |
| DutyCycle.ClaimKeepsReachable | src/lora/duty_cycle.rs:106-136 | each call, accepted or refused, keeps the whole invariant: the ring refines the log, the total is within the allowance, every window one bucket short of the ring is safe |
| DutyCycle.AdvanceRefines | src/lora/duty_cycle.rs:86-99 | after advancing, each bucket still holds exactly the airtime the log has in its minute, including after a long idle |
| DutyCycle.ChargeRefines | src/lora/duty_cycle.rs:117-120 | charging the head bucket is appending the claim to the log |
| DutyCycle.AdvanceInTwoSteps | src/lora/duty_cycle.rs:86-99 | advancing in two steps leaves the same airtime at every age as advancing in one; the whole state agrees unless sixty buckets have passed, when both rings are empty |
| DutyCycle.RetryHintIsExact | src/lora/duty_cycle.rs:122-132 | after a refusal with hint r, r is positive and at most the ring's span (an hour), and the same claim d ms later succeeds if and only if d >= r |
| DutyCycle.NoHintMeansNever | src/lora/duty_cycle.rs:50-55 | a refusal carries no hint if and only if no later call for that airtime succeeds, whatever calls come between |
| DutyCycle.RefusalLeavesNoTrace | src/lora/duty_cycle.rs:104-132 | the call after a refused claim is decided as if the refused claim had not been made |
| DutyCycle.HourCanHoldTwice | src/lora/duty_cycle.rs:5-8 | for every sub-band, every millisecond of a minute but the last and every packet length there is a run of accepted claims that puts twice the allowance less one such packet into one hour |
| DutyCycle.HourCanHoldTwiceAfterIdle | src/lora/duty_cycle.rs:86-93 | after an idle hour two equal claims alone, of up to the allowance each, can lie within one hour |
| DutyCycle.HourHoldsAtMostTwice | src/lora/duty_cycle.rs:5-8 | over every run, no closed hour holds more than twice the allowance |
| DutyCycle.HourKeptIffEndOfMinute | src/lora/duty_cycle.rs:5-8 | for every sub-band and least packet length, the claims accepted `phase` ms into a minute all keep the hour ending at them within the allowance if and only if `phase` is the minute's last millisecond |
| DutyCycle.ExactAtTheEndOfAMinute | src/lora/duty_cycle.rs:5-8 | in the last millisecond of a bucket the limiter decides exactly as a sliding window of the ring's span does |
| FiringDelay.SafeOnAirIff | src/gateway/scheduler.rs:15-16 | for every sub-band, in all runs and with all firing delays up to D every closed window of W ms on the air is within the allowance, if and only if W + D is at most 59 minutes |
| Limiter.DutyCycleLimiter.ForFrequency | src/lora/duty_cycle.rs:70-78 | a new limiter is empty, with the sub-band's allowance, and valid |
| Limiter.DutyCycleLimiter.SpentMs | src/lora/duty_cycle.rs:81-83 | the sum over the physical ring is the sum over the buckets by age |
| Limiter.DutyCycleLimiter.Advance | src/lora/duty_cycle.rs:86-99 | rotating the ring in place ages every bucket by the elapsed minutes and drops those past the sixtieth |
| Limiter.DutyCycleLimiter.ReleasingExpiry | src/lora/duty_cycle.rs:122-135 | the walk finds the least number of expiries that frees enough; what it has freed never exceeds what was spent, and the fall-through is unreachable |
| Limiter.DutyCycleLimiter.TryClaim | src/lora/duty_cycle.rs:106-136 | the in-place claim computes the result and the buckets by age of the specification; the 32-bit sum of spent and asked airtime does not overflow |
| Limiter.RotateAges | src/lora/duty_cycle.rs:94-98 | moving the head on and clearing the new head slot makes every bucket one minute older |
| Limiter.SumAges | src/lora/duty_cycle.rs:81-83 | the order in which the ring is summed does not matter |
| DownlinkPolicy.TrackedBandIsWithinAllowance | src/gateway/forwarder.rs:136-171 | over every run of requests with nondecreasing times, at most a tracked sub-band's allowance is accepted in any closed 59 minutes |
| DownlinkOnAir.TrackedBandIsSafeOnAir | src/tasks/gateway.rs:144-173 | with firing delays of at most D, every closed window that leaves room for D within the 59 minutes holds at most a tracked sub-band's allowance at the moments its packets go out |
| DownlinkOnAir.BandSafeOnAirIff | src/gateway/scheduler.rs:35-51 | for each sub-band in range, over all runs in which every downlink goes out at its own time, each closed window of W ms on the air is within the allowance if and only if W is at most 3,510,000 |
| DownlinkOnAir.FireAccepted | src/tasks/gateway.rs:144-173 | executing an accepted job at once, with ideal timers and setup within the lead, delays it by what the previous row assumes |
| DownlinkPolicy.DecisionsAreBandLocal | src/gateway/forwarder.rs:160-171 | a tracked sub-band accepts or refuses each request as in a run fed only that sub-band's requests |
| DownlinkPolicy.TrackedBandRunsAlone | src/gateway/forwarder.rs:160-171 | the limiter and the sent packets of a tracked sub-band are those of a lone limiter fed its claims |
| DownlinkPolicy.AllowanceIsTheBands | src/lora/duty_cycle.rs:21-47 | whichever frequency of a sub-band creates its limiter, the allowance is the sub-band's; accepted frequencies lie in sub-bands 2 to 6 |
| DownlinkPolicy.AllowanceByCarrier | src/lora/duty_cycle.rs:21-31 | the allowance of every carrier from 863 to 870 MHz: 360 s iff within 869.4 to 869.65, 36 s iff within 868.0 to 868.6 or from 869.7, else 3.6 s |
| DownlinkPolicy.ScreenedOutAreInvisible | src/gateway/forwarder.rs:142-151 | without its requests refused for frequency or timing, every run leaves the same budgets and sends the same packets |
| DownlinkPolicy.ScreenByTrueTime | src/gateway/forwarder.rs:142-151 | before any budget: TX_FREQ iff outside 863 to 870 MHz; TOO_LATE, TOO_EARLY or acceptance by the true time left to the target (under 20 ms, over 30 s, between), across counter wraps; the job keeps the target |
| DownlinkPolicy.FifthBandPassesItsAllowance | src/gateway/forwarder.rs:161-171 | five immediate requests, one to each sub-band in the accepted range, and the fifth sub-band has sent 9,020 ms within 59 minutes against an allowance of 3,600 |
| DownlinkPolicy.FifthBandSendsEverything | src/gateway/forwarder.rs:161-171 | after requests in the other four sub-bands, n equal requests in the fifth put n times their airtime into one millisecond |
| DownlinkPolicy.EveryBandTrackedIffAtMostFour | src/gateway/forwarder.rs:161-166 | after a run, every sub-band asked for has a limiter if and only if at most four were asked for |
| DownlinkPolicy.BandsAreKeptIffAtMostFour | src/gateway/forwarder.rs:161-171 | for any set of the sub-bands in range, all runs confined to it accept at most the allowance of each in any closed 59 minutes, if and only if they are at most four |
| DownlinkPolicy.UntrackedBandSendsEverything | src/gateway/forwarder.rs:161-171 | a sub-band without a limiter has sent everything asked of it |
| DownlinkPolicy.OversizePacketRefusedIffTracked | src/gateway/forwarder.rs:161-171 | a packet longer than its sub-band's whole allowance is refused if and only if the sub-band has a limiter or there is room for one |
| Forwarder.GatewayForwarder.EnsureLimiter | src/gateway/forwarder.rs:161-166 | adds a limiter for a new sub-band while there is room and otherwise leaves the map as it was |
| Forwarder.GatewayForwarder.Accept | src/gateway/forwarder.rs:136-192 | the method's answer and the budgets it leaves are those of the policy; all other limiters keep their state |
| Dispatch.TransmittedAirtimeIsWithinAllowance | src/dispatcher/handler.rs:140-224 | over every run of commands and radio outcomes, the airtime charged is at most 360 s in any closed 59 minutes; so is that of the packets handed over, at the settings the radio then has, unless a change to a higher spreading factor failed but reached the modem |
| Dispatch.AllowanceKeptIffNotSlower | src/dispatcher/handler.rs:172-224 | after every run, the packets of any burst after an idle hour take at most 360 s of air in 59 minutes if and only if the radio's spreading factor is not above the dispatcher's |
| Dispatch.RefusalHintIsExact | src/dispatcher/handler.rs:172-200 | every refusal hints at 1 to 3,600 s, hands nothing to the radio, and the same payload after s whole seconds is admitted if and only if s reaches the hint |
| Dispatch.HandleKeepsReachable | src/dispatcher/handler.rs:140-224 | each command keeps both settings within spreading factors 7 to 12 and the budget in step with what was charged |
| Dispatch.UnderchargedIffRadioIsSlower | src/dispatcher/handler.rs:203-224 | if the radio had another spreading factor than the dispatcher, a packet would be undercharged if and only if the radio's is the higher |
| Dispatch.LongestPacket | src/dispatcher/handler.rs:172-200 | no payload of up to 256 bytes takes more than 7,148 ms, so no refusal is for ever |
| Dispatch.OtherCommandsAreInvisible | src/dispatcher/handler.rs:140-159 | without its commands other than transmissions and spreading-factor changes, every run leaves the same settings, budget and transmissions |
| Dispatch.GetRadioConfigTellsLastChange | src/dispatcher/handler.rs:140-159 | over every run, a host that asks is told the default settings with the spreading factor of the last change that was reported as done |
| Dispatcher.CommandDispatcher.Dispatch | src/dispatcher/handler.rs:140-159 | on the driver over a failing bus, the in-place dispatcher's response and state are those of the specification, and the chip has sent exactly the packets that went out, with the bytes of the radio's settings; unless a wait, read or write failed, a packet not refused is answered TxComplete if and only if the chip raised TX_DONE for it, and no other command ever is |
| Dispatcher.CommandDispatcher.HandleLoraTx | src/dispatcher/handler.rs:172-200 | claims before transmitting; a refused packet never reaches the radio, a failed one stays charged; a payload the radio cannot take is answered InvalidLength, a wait that ran out is the only timeout |
| Dispatcher.CommandDispatcher.HandleSetSpreadingFactor | src/dispatcher/handler.rs:203-224 | the stored configuration changes only when the driver took the new one; the modem's may have changed all the same, and the specification says when |
| Dispatcher.ServeCommands | src/tasks/lora.rs:27-148 | the radio task over any commands and any bus failures, from bring-up on: the responses, none to a reboot, are those of a run of the dispatcher, nothing is sent if the radio never came up, for each TxComplete one transmission ended with TX_DONE, if nothing on the bus fails every permitted change is done and every packet not refused that the radio can send goes out, and if no spreading-factor change was answered with an error, the register bytes of the packets the chip sent say at most 360 s of air in any closed 59 minutes |
| Dispatcher.RegisterAirtimeIsWithinAllowance | src/tasks/lora.rs:101-148 | the same of every run in which no change to a higher spreading factor was cut short at the modem |
| Dispatcher.RegistersTellAirtime | src/lora/driver.rs:371-422 | the airtime read off the chip's registers, packet by packet, is the airtime at the radio's settings |
| Airtime.RoundedUpIff | src/lora/airtime.rs:32-90 | the result is the ceiling in ms of the datasheet's time, with low-data-rate optimisation wherever a symbol takes 16.384 ms or more, for every packet if and only if the bandwidth label is 31, 62, 125, 250, 500 or 64 to 124 |
| Airtime.LdroIsSlowSymbolsIff | src/lora/calibration.rs:37-43 | for every spreading factor and label, the low-data-rate switch is on exactly when a symbol takes 16.384 ms or more, over the reals, if and only if the label is of the table and not 8, 16 or 63 at factors 7, 8 or 10, or stands for 125 kHz and is on its side of the threshold |
| Airtime.UnderEstimateIsBounded | src/lora/airtime.rs:82-87 | before rounding to ms the result is at most the datasheet's time and low by less than q/4 + 1 microseconds, q being the quarter-symbol count |
| Airtime.QuarterSymbolsAreDatasheetSymbols | src/lora/airtime.rs:73-85 | the integer symbol count is four times the datasheet's real-valued one, ceiling and clamp included |
| Airtime.LongPreambleIsUndercharged | src/lora/airtime.rs:82-89 | at each of the other bandwidths the longest preamble is charged less than its exact time |
| Airtime.AirtimeGrowsWithSf | src/lora/airtime.rs:57-90 | airtime strictly increases with the spreading factor from 7 to 12 at every bandwidth, coding rate, preamble and payload, also where low-data-rate optimisation switches on |
| Airtime.AirtimeMonotone | src/lora/airtime.rs:57-90 | airtime never drops as payload, preamble, coding rate (5 to 8) or the CRC grow |
| Airtime.NoOverflow | src/lora/airtime.rs:73-90 | for payloads up to 256 bytes no intermediate value leaves its integer type |
| Scheduler.DeltaIsTrueWithinHorizon | src/gateway/scheduler.rs:19-21 | the difference of two wrapped counters is the true difference if and only if that lies within half the counter's range |
| Scheduler.ClassifyAgreesWithTrueTime | src/gateway/scheduler.rs:35-51 | within the horizon, the decision on counters is the decision on true times, across any number of wraps |
| Scheduler.ExecuteDownlink | src/tasks/gateway.rs:144-173 | with ideal timers a job is dropped iff picked up less than 20,000 us ahead; otherwise it fires at exactly 450 us before its target when setup takes at most 19,550 us, and at the end of setup when longer |
| Sx1262.ConfigureRealisesConfig | src/lora/driver.rs:762-793 | after a whole configure, reading the registers back gives the configuration, its low-data-rate bit by the real symbol time, if and only if the frequency register fits 32 bits and the label tells whether symbols are slow; IQ polarity, standby and no packet besides |
| Sx1262.CarrierRecoveredIff | src/lora/driver.rs:358-368 | the frequency is the ceiling of register times 32 MHz over 2^25, exactly for frequencies below 4.096 GHz |
| Sx1262.ImageCalibratedIff | src/lora/calibration.rs:20-29 | the range the image is calibrated for contains the carrier if and only if it lies in 430-440, 470-510, 779-787, 860-876 or 902-928 MHz |
| Sx1262.IqMasking | src/lora/driver.rs:334-338 | the arithmetic on the IQ polarity byte is the masking of bit 2, its other bits kept |
| Sx1262.PrepareStages | src/lora/driver.rs:581-605 | the staging commands leave the payload in the buffer, its length in the packet parameters and TX_DONE armed |
| Sx1262.ReceiveListens | src/lora/driver.rs:630-648 | the receive commands leave the chip in continuous RX with length 255, the RX mask and the stored preamble, CRC and IQ |
| Sx1262.CutShortConfigureTuning | src/lora/driver.rs:762-793 | what a configure that stopped after any of its ten commands has changed: the frequency from the second on, the modulation from the fourth, the sync word from the fifth and sixth, the IQ polarity from the seventh |
| Sx1262.CutShortConfigureModulation | src/lora/driver.rs:762-793 | the modulation has changed exactly when at least four of the ten commands landed |
| Sx1262.ChargedAirtimeIsOnAirAirtime | src/lora/driver.rs:371-422 | for spreading factors 7 to 12 the modulation and packet-parameter bytes determine exactly the airtime charged, at every bandwidth label and coding rate |
| Driver.SpiBus.Write | src/lora/driver.rs:162-186 | a command that fails on a busy chip did not land; one that fails on the bus may or may not have |
| Driver.SpiBus.WriteAll | src/lora/driver.rs:581-605 | commands in order up to the first failure; the chip stands at some prefix of them |
| Driver.Sx1262Driver.constructor | src/lora/driver.rs:127-138 | a new driver is uninitialised, not listening and without a configuration |
| Driver.Sx1262Driver.SetStandby | src/lora/driver.rs:345-349 | the listening flag is dropped whether or not the command succeeds |
| Driver.Sx1262Driver.Configure | src/lora/driver.rs:762-793 | on success the chip played the whole script and the configuration is stored; on failure the old one is kept while the chip stopped partway; the listening flag is down either way |
| Driver.Sx1262Driver.PrepareTx | src/lora/driver.rs:581-605 | on success the payload is staged with its length in 1 to 255; uninitialised or ill-sized requests are refused with the chip untouched |
| Driver.Sx1262Driver.FireTx | src/lora/driver.rs:608-611 | at most one packet goes out: the staged payload, with length byte and TX_DONE mask to match |
| Driver.Sx1262Driver.WaitTxDone | src/lora/driver.rs:614-626 | with the flag down when the packet was fired: the answer blames the bus iff a wait, read or write failed; otherwise it is Ok iff the chip raised TX_DONE meanwhile, else TransmitFailed |
| Driver.Sx1262Driver.Transmit | src/lora/driver.rs:707-712 | exactly one packet of the given payload on success, at most one on failure, with the modulation the chip had and the stored packet settings; the answer blames the bus iff a wait, read or write failed, and otherwise is Ok if and only if the chip raised TX_DONE for it, a stale flag having been cleared before |
| Driver.Sx1262Driver.StartReceiveMode | src/lora/driver.rs:630-648 | the listening flag is up if and only if every receive command succeeded |
| Driver.Sx1262Driver.ArmReceive | src/lora/driver.rs:714-728 | after Ok the chip is in continuous RX; when already listening no command is sent |
| Driver.Sx1262Driver.ReadPacket | src/lora/driver.rs:741-760 | reading a packet leaves the chip listening however it fails; unless a read or write failed, CrcError iff the status read has CRC_ERR, ReceiveFailed iff it has neither that nor RX_DONE |
| Driver.Sx1262Driver.Initialise | src/lora/driver.rs:659-705 | the driver counts as initialised if and only if every step succeeded, and then listens with the default configuration |
| Driver.Operate | src/lora/driver.rs:581-797 | any sequence of operations failing anywhere keeps the driver's invariant (listening flag means listening chip); the packets sent are well formed and matched, in order and one to one, with operations that asked for them |
| Driver.ExecuteDownlink | src/tasks/gateway.rs:154-176 | a downlink sends at most one packet, shaped by exactly its own configuration, even after earlier failures, and leaves the chip tuned as far as its configure got; unless a wait, read or write failed, Ok iff the chip raised TX_DONE for it |
| EndToEnd.DownlinkAirtimeIsWhatWasCharged | src/gateway/forwarder.rs:153-171 | an accepted downlink at spreading factor 7 to 12 goes out with exactly the airtime its sub-band was charged |
| EndToEnd.HostAirtimeIsWhatWasCharged | src/dispatcher/handler.rs:172-200 | so does a host transmission while the modem holds the dispatcher's configuration |
| EndToEnd.CutShortConfigureUnderchargesIff | src/dispatcher/handler.rs:203-224 | after a spreading-factor change cut short at any of its ten commands, packets are undercharged if and only if at least four landed and the new factor is higher |
| EndToEnd.ChangeSpreadingFactor | src/lora/driver.rs:762-793 | the driver's own change over a failing bus: afterwards packets of every length are undercharged if and only if it failed with at least four commands landed and the new factor is higher |
| GatewayRadio.ServeDownlink | src/tasks/gateway.rs:72-84 | one downlink and the way back: the armed chip hears the uplink channel again if and only if the reconfiguration succeeded, or it and the downlink's configure both failed and every command that had tuned the chip away was undone; after a success it hears it whatever went before; if nothing on the bus fails the packet goes out and the channel is heard |
| GatewayRadio.RestoredIff | src/tasks/gateway.rs:78-83 | two configures cut short anywhere leave the uplink tuning if and only if each tuning command of the first that landed was repeated by the second or writes the same |
| GatewayRadio.HearsMeansListensOn | src/tasks/gateway.rs:29-40 | with valid gateway settings, a chip that hears the uplink configuration has exactly their carrier, factor, bandwidth, coding rate and low-data-rate bit, sync word 0x3444, standard polarity, eight preamble symbols, CRC on and length 255 |
| GatewayTask.ServeDownlinks | src/tasks/gateway.rs:43-125 | the gateway task over a whole run of accepted downlinks and any bus failures: the chip's packets are those of accepted downlinks, in order and each at most once, and by their frequency, modulation and packet registers and the times they went out, each tracked sub-band keeps its allowance in every closed 59 minutes less the longest firing delay; if nothing on the bus fails, every downlink taken up in time that the radio can send was sent |
| GatewayTask.ServeOne | src/tasks/gateway.rs:78-84 | one accepted downlink: at most one packet, its own, and only if taken up in time; if nothing on the bus fails, exactly one |
| GatewayTask.SentForIsCharged | src/gateway/forwarder.rs:153-171 | a packet sent for a downlink is, by its registers, in the downlink's sub-band and takes no longer than it was charged; exactly that at spreading factors 7 to 12 |
| GatewayTask.SentForIsAsAsked | src/gateway/forwarder.rs:173-191 | a packet sent for a downlink is, register by register, what the request asked for: payload, carrier, spreading factor, bandwidth, coding rate, low-data-rate bit, preamble, explicit header, length, no CRC, IQ inversion in packet parameters and polarity register, power up to 22 dBm, sync word 0x3444 |
| BridgeProtocol.EveryDownlinkIsAccountedFor | src/tasks/bridge.rs:26-71 | over every run, each MQTT downlink has at most one tx/result, carrying its own id; an unanswered one is one entry in flight found in exactly one of: command queue, radio, response queue, lost to lag; at most four are in flight |
| BridgeHonesty.AnswersAreTruthful | src/bridge/mod.rs:80-132 | over every run, each tx/result tells what became of its own downlink: `sent` iff the radio executed exactly that payload with success, `refused` with the radio's hint iff the budget refused it, and otherwise the reason it was turned away |
| BridgeHonesty.VerdictIffCause | src/bridge/mod.rs:80-108 | over every run, a downlink is answered `busy` iff four entries were in flight when it arrived, `queue_full` iff there were fewer, its command could be built and eight commands were queued, and the two parse errors iff it was malformed that way |
| BridgeHonesty.ExecutedAtMostOnce | src/tasks/lora.rs:101-148 | what the radio starts on for a downlink has neither been executed nor answered before |
| BridgeHonesty.NextKeepsHonest | src/tasks/bridge.rs:26-71 | every step keeps that each queued command carries its own arrival's payload, each response reports how that command went, and each answer is true |
| BridgeProtocol.NextKeepsInvariant | src/tasks/bridge.rs:26-71 | every step of bridge, serial host, radio task and response channel keeps the conservation invariant |
| BridgeLag.NextIdIsFreeIffYoung | src/bridge/mod.rs:96-99 | in every run, the next downlink gets an id of its own if and only if no entry has seen 65,536 ids issued since its own |
| BridgeProtocol.ResponseFindsItsEntry | src/bridge/mod.rs:118-132 | a WiFi response that the bridge reads always finds its entry still in flight |
| BridgeProtocol.ReceivedAreNumbered | src/bridge/mod.rs:62-76 | over every run, the rx publications carry the packets read, numbered in order from zero modulo 2^32 |
| BridgeLag.BusyForEverIffFourLost | src/bridge/mod.rs:92-94 | in every run, all continuations answer every well-formed downlink busy if and only if four responses were lost to lag |
| BridgeLag.Drain | src/tasks/bridge.rs:26-71 | every run can be continued until nothing is on its way, losing nothing more |
| BridgeLag.EightMessagesLoseFour | src/tasks/bridge.rs:28-31 | four downlinks executed and eight other messages published, none of them read by the bridge, is a possible run and loses four responses |
| Bridge.BridgeState.OnDownlink | src/bridge/mod.rs:80-108 | the object's new state and outcome on each of the five paths, the unencodable command's entry removed again |
| Bridge.BridgeState.Abandon | src/bridge/mod.rs:112-115 | removes the entry and answers with its id |
| Bridge.BridgeState.OnCommandResponse | src/bridge/mod.rs:118-132 | answers and removes a known entry; an unknown one changes nothing and answers nothing |
| Bridge.BridgeState.OnRxPacket | src/bridge/mod.rs:62-76 | numbers received packets with a wrapping 32-bit counter |
| BridgeTask.Task.OnMqtt | src/tasks/bridge.rs:55-69 | the task's handling of a downlink is the protocol's arrival step: sent on, rejected, or abandoned when the queue is full |
| BridgeTask.Task.OnResponse | src/tasks/bridge.rs:32-54 | the task's handling of a message is the protocol's read step |
| HubCodec.CommandRoundTrip | hub-protocol/src/codec.rs:138-159 | every in-cap command parses back from its frame, whatever follows the CRC |
| HubCodec.CommandEncodingUnique | hub-protocol/src/codec.rs:224-265 | whatever bytes parse as a command are in cap and begin with exactly that command's frame |
| HubCodec.ResponseRoundTrip | hub-protocol/src/codec.rs:268-301 | every in-cap response parses back from its frame |
| HubCodec.ResponseEncodingUnique | hub-protocol/src/codec.rs:162-214 | whatever bytes parse as a response are in cap and begin with exactly that response's frame |
| HubCodec.RawInverse | hub-protocol/src/codec.rs:17-26 | a raw frame parses back to its id and payload |
| HubCodec.RawUnique | hub-protocol/src/codec.rs:38-56 | the first 6 + length bytes of whatever parses are the raw frame of the result |
| HubCodec.FramesAreShort | hub-protocol/src/codec.rs:138-159 | no frame is longer than 217 bytes before COBS |
| HubWire.CommandOnTheWire | hub-protocol/src/codec.rs:17-26 | every command frame byte by byte: version 1, the id 0x20 to 0x26, length and CRC low byte first, and each field of each payload at its place |
| HubWire.ResponseOnTheWire | hub-protocol/src/codec.rs:268-301 | and every response frame: ids 0x20 to 0x22, the status bytes, each field at its place |
| HubWire.RefusalIff | hub-protocol/src/codec.rs:224-265 | which refusal any bytes get: version before length before CRC before command id; a bad parameter iff an intact mode frame names no mode |
| HubReader.PayloadReader.Take | hub-protocol/src/codec.rs:69-76 | returns the next n bytes and moves past them, or fails and stays |
| HubReader.PayloadReader.Text | hub-protocol/src/codec.rs:93-103 | the string read by the moving reader is the one the field parser finds, cap before length before UTF-8 |
| HubReader.ReadCommand | hub-protocol/src/codec.rs:230-264 | reading a command's fields in place agrees with the parser on values, errors and what is left |
| HubReader.ParseCommand | hub-protocol/src/codec.rs:224-265 | the imperative parser computes the command or the status that the specification gives |
| HubReader.BuildCommandFrame | hub-protocol/src/codec.rs:138-159 | with room for the largest frame, the silently dropping vector drops nothing: the frame is the encoding |
| Http.DecisionIsStable | src/portal/http.rs:38-75 | Complete and Bad do not change when bytes are appended, up to 2048 in all |
| Http.Parse | src/portal/http.rs:38-75 | the parser with its header loop computes the specified outcome |
| Http.FindEnd | src/portal/http.rs:77-79 | finds the first blank line |
| Http.ServeConnection | src/tasks/portal.rs:141-163 | for every split of a byte stream into reads the loop reaches the same request or the same drop |
| Http.PrintedRequestParses | src/portal/http.rs:38-75 | every request that fits the buffer parses back into its verb, path and body, with any header lines around: the last content-length line, its name in any letter case and blanks around its number, gives the body, an unreadable number counting as zero, and without one there is none |
| Http.SaysIsContentLength | src/portal/http.rs:54-62 | the loop over any header lines comes to the length that the last content-length line gives, or zero |
| Http.RequestServedIff | src/portal/http.rs:38-75 | a well-formed request, whatever its header lines, gets past the connection's read loop if and only if it is at most 2048 bytes long |
| Http.LongRequestOutcome | src/portal/http.rs:65-71 | of a longer one, the full buffer is Incomplete when its headers fit and it ends at byte 2049 to 2052, and Bad otherwise |
| Http.FullBufferUndecidedIff | src/portal/http.rs:65-71 | any full buffer is Incomplete if and only if it announces a request that ends one to four bytes past it |
| HubConfig.AcknowledgedMeansDurable | src/tasks/hub_ctrl.rs:45-87 | over every run of commands, storage failures and reboots the pending configuration stays valid and of the current schema; if the last change was acknowledged Ok, rebooting loads exactly the pending configuration |
| HubConfig.AcknowledgedChangeIsKept | src/hub_config/mod.rs:90-131 | over every run, once a change was answered Ok what it asked for is pending and in the flash, and after a clear the defaults are pending and the flash is empty, through other changes, failed writes and restarts, until a valid command overrides it |
| HubConfig.AcknowledgedChangeIsShown | src/hub_config/mod.rs:136-145 | and the configuration reply shows it for as long |
| HubConfig.ChangeAnswerIff | src/tasks/hub_ctrl.rs:45-87 | after every run a change is answered Ok iff it is valid and the flash can be written; otherwise the flash is as before, and what only failed to be written is pending: after a failed clear, the defaults |
| HubConfig.UnstoredChangeIsUndone | src/tasks/hub_ctrl.rs:66-87 | a change answered with a storage error is what a reboot undoes |
| HubConfig.IneffectiveAreInvisible | src/hub_config/mod.rs:90-131 | without its queries and invalid commands, every run leaves the same configuration and flash |
| HubConfig.PasswordIsNeverTold | src/hub_config/mod.rs:134-145 | two hubs that differ in WiFi passwords only, and are sent commands that differ in WiFi passwords only, give the same replies over every run |
| HubConfig.UpdateAcceptedIff | src/tasks/portal.rs:212-223 | an update is one to four commands, and goes through if and only if what it merges to is valid and every write succeeds; then the updated configuration is pending and stored, in the mode that `bridge` or `gateway` names |
| HubConfig.UpdateRefusedIff | src/portal/http.rs:204-267 | an update is empty iff it names no field but a password, and bad iff a text it would use is over its cap or its mode is neither word |
| HubConfig.SecondUpdateKeepsFirstIff | src/portal/http.rs:204-267 | of two updates in a row with no restart between them, the second is applied to the result of the first if and only if no group it touches has a field that the first changed and it does not name |
| HubConfig.UpdateStopsAtFirstRefused | src/tasks/portal.rs:212-223 | wherever an update stops: the commands before the first invalid or unwritten one are pending and stored, that one is pending too if only its write failed, the rest is as it was |
| HubConfig.RefusedUpdateStoresNetwork | src/tasks/portal.rs:212-223 | naming a network beside an MQTT port of zero is answered with a refusal after the network was stored |
| HubConfig.UpdateIsMergeIff | src/portal/http.rs:204-267 | from a pending configuration equal to the active one, an update is the field-by-field merge if and only if it treats the WiFi password in a way the merge would |
| HubCtrl.HubControl.Handle | src/tasks/hub_ctrl.rs:45-64 | the control task's reply, pending configuration and flash are those of the specification |
| HubCtrl.HubControl.Persist | src/tasks/hub_ctrl.rs:66-87 | saving stores the pending configuration, clearing empties the flash, a failure leaves it unchanged |
| HubCtrl.HubControl.constructor | src/main.rs:308-313 | boot loads a stored configuration of the current schema, else the defaults |
| HubCtrl.BuildCommands | src/portal/http.rs:204-267 | the commands pushed group by group are the specified list, or the specified error |
| HubCtrl.ApplyUpdate | src/tasks/portal.rs:212-223 | the apply loop stops at the first command that is not acknowledged |
| Decimal.PrintedNumberParses | src/gateway/udp_protocol.rs:317-326 | a printed number reads back in exactly the types it fits |
| Datagram.PrintedDatrParsesIff | src/gateway/udp_protocol.rs:317-326 | a printed data rate reads back for every 32-bit bandwidth and exactly the spreading factors 5 to 12 |
| Datagram.RxpkFits | src/gateway/udp_protocol.rs:161-189 | for every metadata value and payload up to 256 bytes the rxpk object fits beside the header in 600 bytes |
| Datagram.AckFits | src/gateway/udp_protocol.rs:228-233 | every acknowledgement fits beside the header in 64 bytes |
| DatagramWriter.SliceWriter.PushBytes | src/gateway/udp_protocol.rs:133-138 | appends as many of the bytes as fit, in place |
| DatagramWriter.SliceWriter.WriteStr | src/gateway/udp_protocol.rs:142-148 | appends all of the text or nothing |
| DatagramWriter.SliceWriter.WriteFormat | src/gateway/udp_protocol.rs:141-149 | a formatted write leaves a whole number of fragments, and all of them if they fit |
| DatagramWriter.BuildPushData | src/gateway/udp_protocol.rs:161-189 | every PUSH_DATA with one packet is written whole, and the server reads that packet from it |
| DatagramWriter.BuildTxAck | src/gateway/udp_protocol.rs:228-233 | every TX_ACK is written whole, and the server reads that error from it |
| DatagramReader.PushDataReadsBack | src/gateway/udp_protocol.rs:161-189 | a reader written from the protocol gets back token, gateway, time, frequency to the hertz, data rate, signal and data from every PUSH_DATA |
| DatagramReader.TxAckReadsBack | src/gateway/udp_protocol.rs:228-233 | it gets back the request's token, the gateway and the very error from every TX_ACK |

## Left out

- Clocks are assumed nondecreasing and are natural numbers; a 64-bit millisecond clock near its end is not modelled.
- DutyCycle.AirtimeInAny59MinutesIsWithinAllowance: stated for 59 minutes and not for the regulation's hour, because the code guarantees no more; `HourKeptIffEndOfMinute` and `HourHoldsAtMostTwice` say what it does guarantee.
- Dispatcher.ServeCommands: turns carry their time and whether a received packet is read first; the waiting itself and the LED are not modelled, and the loop ends with its commands.
- GatewayRadio.ServeDownlink: stated from a chip tuned to the uplink channel; after a failed way back the next turn starts from what that left, and any success restores the channel.
- BridgeProtocol.EveryDownlinkIsAccountedFor: assumes fewer than 65,536 ids are issued while an entry is outstanding; a tx/result counts as given when it is produced, before the bounded MQTT queue that may drop it (`src/tasks/bridge.rs:75-81`).
- HubConfig.AcknowledgedMeansDurable: the baked defaults are a parameter assumed valid, and a failed flash operation leaves the flash as it was.
- Scheduler.ExecuteDownlink: timers are ideal and the counter does not advance between a clock reading and the timer armed from it.
- GatewayTask.ServeDownlinks: which accepted downlinks the channel had room for, and whether their moment had passed, are inputs; retries of a failed arming are left out, and packets at spreading factors 5 and 6 count as no airtime.
- DownlinkOnAir.BandSafeOnAirIff: a radio busy with another downlink may delay one further; `TrackedBandIsSafeOnAir` covers any bound on the delay.
- EndToEnd.DownlinkAirtimeIsWhatWasCharged: spreading factors 5 and 6, which the data-rate parser lets through and the airtime clamps to 7, are left out.
- The SPI bus writes each command as a whole; NSS framing after an error, chip timing, and register values after reset (arbitrary here) are not modelled. `SpiBus.WriteAll` stands for a chain of awaited commands that stops at the first error.
- What the chip answers to status and buffer reads is arbitrary but for TX_DONE, so the contents of received packets are not modelled. A transmission goes on only while the driver waits for it, and may end without TX_DONE.
- JSON, hex, base64, COBS, the CRC, UTF-8 validation and the 64-bit float frequency conversion are parameters or start from the parsed value.
- The host side's `parse_response` is a function without its moving reader, which is the one `HubReader` models for commands.
- Whitespace around a Content-Length value is trimmed as ASCII only.
- The forwarder's tokens, counters, statistics and datagram dispatch, and the pairing of PUSH_ACK with PUSH_DATA.
- The counters of the hub's status reply.
- The serial subscriber of the response channel; its own queue does not affect the bridge's.
- Sockets, MQTT, WiFi, USB, LED, DHCP, DNS, topic names, the station supervisor and the mobile application.
