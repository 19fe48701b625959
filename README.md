# DesignWare peripheral models

This project models, in Dafny, the core of a set of QEMU device models for
the DesignWare peripherals of NationalChip SoCs, and proves properties of
the model. Every device is described by its registers as the guest sees them
and by the effect of each register access, timer callback or incoming
signal. Guest memory, the SD card, the SPI bus, the network and the
character backend are modelled as values or oracles.

- **AHB DMA controller** (`hw/gx/dw_ahb_dmac.c`, `hw/gx/dw_ahb_dmac_regs.h`).
  The controller has eight channels with SAR, DAR, LLP, CTL and CFG
  registers, five raw/mask interrupt pairs, a global enable and a
  channel-enable mask with per-bit write enables. It also has sixteen
  hardware handshake inputs and four AHB master address spaces.
  - `DmacRegs` holds the register layout and the linked-list item format.
  - `ChannelBits` holds the per-channel bit words and the write-enable
    (`masked_value`) and clear-by-writing-one idioms.
  - `DmacAccess` holds the register read and write decoders.
  - `DmacEngine` gives the engine (`check_channel`, `check_src`,
    `check_dst`, the transfer loop and `process`) as functions on a
    controller value.
  - `DmacController.Controller` is the device object. Its methods update
    the same state in place, with the source's loops, and are proved
    equal to the engine functions.
  - The main engine property is confinement: running channel `i` changes
    no other channel, mask, handshake level or the global enable. Channel
    `i` can only lose its enable bit and gain raw interrupt flags, and the
    interrupt line stays in step with the flags.
- **Guest memory** (`GuestMemory`). A bus address space is a partial byte
  map.
  - An `address_space_read`/`_write` fails as a whole when any byte is
    unbacked.
  - A `cpu_physical_memory_read`/`_write` never fails: unbacked bytes
    read as zero and writes to them are dropped.
  - Words are little-endian.
- **APB UART** (`hw/gx/dw_apb_uart.c`). The UART has a 16-entry receive
  ring (`RingWindow` gives the queue such a ring holds), the divisor latch
  behind LCR bit 7, an interrupt identity, and three output lines.
  Transmitted bytes go to `sent`, which stands for the character backend.
- **APB watchdog** (`hw/gx/dw_apb_wdt.c`). The watchdog has CR, TORR, CRR,
  STAT and EOI. The virtual clock is a parameter, and the QEMU timer is an
  armed flag with a deadline.
- **AHCI glue** (`hw/gx/gx_ahci.c`). This is 32 plain registers whose reads
  patch the PHY ready field and busy bit.
- **SSI** (`hw/gx/dwc_ssi.c`). The SSI has 32-word transmit and receive
  FIFOs, the standard transfer, and the enhanced transfer, which first
  sends an instruction and an address popped from the transmit FIFO.
  - The SPI bus is an oracle (`SsiLink.Bus`). It records every word sent
    and answers from a script fixed in advance.
- **Ethernet MAC** (`hw/gx/dwc_emac.c`).
  - `EmacPhy` models the RTL8201CP PHY behind the MDIO port.
  - `EmacRing` models the DMA descriptors and the transmit ring walk.
  - `DwcEmac.Emac` models the register file, transmit poll demand, frame
    reception and the interrupt line.
  - Packets handed to the network are appended to `sent`.
- **SD/MMC host** (`hw/nationalchip/dwc_sdhc.c`, `hw/gx/dwc_sdhc_regs.h`).
  - `SdhcLayout` holds the register layout, the descriptor format and the
    response packing.
  - `SdhcData` gives the FIFO exchange with the card, the internal-DMA
    burst loop and the descriptor walk as functions.
  - `DwcSdhc.Controller` is the device object. It has a 128-word FIFO
    array and methods proved to compute those functions.
  - A guest access states its whole effect. `Written` and `FifoRead` give,
    offset by offset, which fields change and how, and that every other
    field is as it was (`PortKept`, `WalkKept` and `CommandKept` name the
    groups of fields that an access leaves alone together).
  - The card is an oracle: it holds the bytes it has ready, collects the
    bytes sent to it, and records the commands issued. Its reply to a
    command is a parameter.

Where the device model has an evident bug, the model follows the code as
written. It also gives the evidently intended behaviour and proves the
intended property about it (see "## Findings").

## Model

| member | source | states |
|---|---|---|
| DmacRegs.ChannelRegDecode | hw/gx/dw_ahb_dmac_regs.h:180-194 | every register of channels 0-7 lies below the interrupt block at 0x2C0, and dividing its offset by the 0x58 stride gives back the channel, the remainder the register |
| DmacRegs.LlpLms | hw/gx/dw_ahb_dmac_regs.h:28-34 | the list-master field of LLP selects one of four masters |
| DmacRegs.LliAddress | hw/gx/dw_ahb_dmac.c:136 | the item address is LLP with its two low bits cleared, that is the `loc` field shifted back into place |
| DmacRegs.LlpEndIff | hw/gx/dw_ahb_dmac.c:124-136 | `loc` is zero exactly when the item address is zero, so the end-of-list test and the address agree |
| DmacRegs.DstTrWidth | hw/gx/dw_ahb_dmac_regs.h:49 | the destination width field is a 3-bit code |
| DmacRegs.SrcTrWidth | hw/gx/dw_ahb_dmac_regs.h:50 | the source width field is a 3-bit code |
| DmacRegs.Dinc | hw/gx/dw_ahb_dmac_regs.h:51 | the destination increment field is a 2-bit code |
| DmacRegs.Sinc | hw/gx/dw_ahb_dmac_regs.h:52 | the source increment field is a 2-bit code |
| DmacRegs.TtFc | hw/gx/dw_ahb_dmac_regs.h:58 | the transfer-type and flow-control field is a 3-bit code |
| DmacRegs.Dms | hw/gx/dw_ahb_dmac_regs.h:59 | the destination master field selects one of four masters |
| DmacRegs.Sms | hw/gx/dw_ahb_dmac_regs.h:60 | the source master field selects one of four masters |
| DmacRegs.PeripheralFlowCodes | hw/gx/dw_ahb_dmac.c:108 | the `tt_fc & 0x4` test picks out exactly the four peripheral-flow-controlled types (codes 4-7) |
| DmacRegs.TrWidth | hw/gx/dw_ahb_dmac.c:219-221 | the width table gives 2^code bytes for codes 0-4 and 32 bytes for codes 5-7 |
| DmacRegs.BlockTs | hw/gx/dw_ahb_dmac_regs.h:67-74 | the block size is the 12-bit `block_ts` field, at most 4095 |
| DmacRegs.WithDone | hw/gx/dw_ahb_dmac.c:120 | setting the done bit of CTL_H keeps the block size and every other bit |
| DmacRegs.WithFifoEmpty | hw/gx/dw_ahb_dmac.c:560-563 | a CFG_L write forces the FIFO-empty bit (bit 9) set and keeps every other bit of the value |
| DmacRegs.SrcPer | hw/gx/dw_ahb_dmac_regs.h:133 | the source handshake interface is one of the 16 inputs |
| DmacRegs.DstPer | hw/gx/dw_ahb_dmac_regs.h:134 | the destination handshake interface is one of the 16 inputs |
| DmacRegs.LliOfWords | hw/gx/dw_ahb_dmac_regs.h:196-203 | the seven words of a linked-list item decode to an item that encodes back to the same words |
| DmacRegs.LliToWords | hw/gx/dw_ahb_dmac_regs.h:196-203 | an item occupies seven 32-bit words: SAR, DAR, LLP, CTL_L, CTL_H and the two status words |
| DmacRegs.ReadLli | hw/gx/dw_ahb_dmac.c:136-146 | fetching an item succeeds exactly when all 28 bytes at the address are mapped on the list master |
| DmacRegs.ReadStoredLli | hw/gx/dw_ahb_dmac.c:137-153 | an item stored at a mapped address is fetched back unchanged |
| ChannelBits.Bit | hw/gx/dw_ahb_dmac.c:95 | a channel's bit `1 << i` is non-zero and lies in the low byte |
| ChannelBits.BitsDisjoint | hw/gx/dw_ahb_dmac.c:95 | the bits of two different channels do not overlap |
| ChannelBits.Pack | hw/gx/dw_ahb_dmac_regs.h:223-230 | a word packed from eight per-channel flags lies in the low byte |
| ChannelBits.Unpack | hw/gx/dw_ahb_dmac_regs.h:306-313 | flag `c` of an unpacked word is bit `c` of the word |
| ChannelBits.PackBit | hw/gx/dw_ahb_dmac_regs.h:223-230 | bit `c` of a packed word is set exactly when flag `c` is |
| ChannelBits.UnpackPack | hw/gx/dw_ahb_dmac_regs.h:223-230 | unpacking a packed word gives back the flags |
| ChannelBits.PackUnpack | hw/gx/dw_ahb_dmac.c:594 | packing the flags of a word gives back its low byte, the `value & 0xFF` the raw registers keep |
| ChannelBits.Both | hw/gx/dw_ahb_dmac.c:76-80 | the channel-wise AND of two flag vectors has flag `c` set exactly when both have |
| ChannelBits.AnyIff | hw/gx/dw_ahb_dmac.c:686 | some flag is set exactly when some channel has its flag set |
| ChannelBits.PackBoth | hw/gx/dw_ahb_dmac.c:442 | the AND of two packed words is the packed channel-wise AND |
| ChannelBits.BothBit | hw/gx/dw_ahb_dmac.c:442 | bit `c` of the AND of two packed words is flag `c` of the channel-wise AND |
| ChannelBits.PackNonZero | hw/gx/dw_ahb_dmac.c:686 | a packed word is non-zero exactly when some flag is set |
| ChannelBits.OverlapIff | hw/gx/dw_ahb_dmac.c:76-80 | `raw & mask` is non-zero exactly when some channel has both its raw and its mask flag set |
| ChannelBits.WriteEnable | hw/gx/dw_ahb_dmac.c:625 | the write-enable byte `(value >> 8) & 0xFF` lies in the low byte |
| ChannelBits.MaskedFlags | hw/gx/dw_ahb_dmac.c:518-521 | a channel whose write-enable bit is set takes its bit from the value; every other channel keeps its flag (also lines 625) |
| ChannelBits.MaskedValueBit | hw/gx/dw_ahb_dmac.c:518-521 | bit `c` of `masked_value` is the value's bit where the enable has it set and the original's bit elsewhere |
| ChannelBits.MaskedFlagsWord | hw/gx/dw_ahb_dmac.c:518-521 | packing the masked flags gives exactly the word `masked_value(orig, (value >> 8) & 0xFF, value)` computes (also lines 625) |
| ChannelBits.MaskedFlagBit | hw/gx/dw_ahb_dmac.c:518-521 | unpacking the masked word agrees with the masked flags channel by channel |
| ChannelBits.ClearedFlags | hw/gx/dw_ahb_dmac.c:645 | a clear write keeps a channel's flag exactly when the value's bit for it is clear |
| ChannelBits.ClearedFlagsWord | hw/gx/dw_ahb_dmac.c:645 | packing the cleared flags gives exactly `raw & ~(value & 0xFF)` |
| DmacEngine.ConfinedTrans | hw/gx/dw_ahb_dmac.c:92-291 | two steps that each touch only channel `i` together touch only channel `i` |
| DmacEngine.ConfinedKeepsInv | hw/gx/dw_ahb_dmac.c:92-291 | a step confined to one channel keeps "no channel enabled while the controller is off" |
| DmacEngine.SetChannel | hw/gx/dw_ahb_dmac.c:94 | replacing channel `i`'s registers changes no flag and no memory |
| DmacEngine.RaiseIf | hw/gx/dw_ahb_dmac.c:100-101 | a raised interrupt sets exactly channel `i`'s raw flag of that kind, and the line is recomputed from raw and mask |
| DmacEngine.Disable | hw/gx/dw_ahb_dmac.c:103 | clearing channel `i`'s enable bit changes neither registers, memory nor raw flags |
| DmacEngine.Fault | hw/gx/dw_ahb_dmac.c:98-104 | an error sets channel `i`'s raw error flag when its CTL_L.INT_EN is set, and always disables the channel (also lines 140-145, 255-259) |
| DmacEngine.Reload | hw/gx/dw_ahb_dmac.c:149-154 | loading an item replaces SAR, DAR, LLP, CTL_L and CTL_H with the item's, restarts the block count at 0 and keeps the configuration registers |
| DmacEngine.EndOfBlock | hw/gx/dw_ahb_dmac.c:120-158 | one pass of the block-end loop either marks the block done, or loads the next item and keeps the channel enabled; when no item is loaded the channel ends disabled |
| DmacEngine.LastBlock | hw/gx/dw_ahb_dmac.c:124-132 | the last block raises the block and transfer interrupts when INT_EN is set, clears the count and disables the channel |
| DmacEngine.ReloadLoop | hw/gx/dw_ahb_dmac.c:119-160 | when the loop lets the channel through its block is unfinished and its enable is untouched; when it closes the channel is disabled |
| DmacEngine.ChannelGate | hw/gx/dw_ahb_dmac.c:92-161 | `check_channel` passes only a channel with transfers left in its block, and a refused channel is disabled |
| DmacEngine.SrcGate | hw/gx/dw_ahb_dmac.c:164-189 | the source side is ready exactly for memory sources (M2M, M2P) or a hardware handshake input that is high; a software-handshake source raises an error and disables the channel; no register changes |
| DmacEngine.DstGate | hw/gx/dw_ahb_dmac.c:192-217 | the destination side is ready exactly for memory destinations (M2M, P2M) or a hardware handshake input that is high; a software-handshake destination raises an error and disables the channel; no register changes |
| DmacEngine.Payload | hw/gx/dw_ahb_dmac.c:251-272 | the bytes written have the destination width and start with the bytes just read |
| DmacEngine.ReadUnit | hw/gx/dw_ahb_dmac.c:252-269 | the source read keeps the controller well formed; its effects are stated by `UnitMovesData` and `UnreadableSourceStep` |
| DmacEngine.WriteUnit | hw/gx/dw_ahb_dmac.c:271-290 | the destination write keeps the controller well formed; its effect is stated by `WriteUnitStores` |
| DmacEngine.WriteUnitStores | hw/gx/dw_ahb_dmac.c:271-290 | a write that goes through stores the payload on the destination master, advances DAR by the destination width (up, down or not at all per DINC) and counts one transfer |
| DmacEngine.TransferUnit | hw/gx/dw_ahb_dmac.c:251-290 | one loop body keeps the controller well formed; `UnitMovesData` and `UnitDestinationFails` state what it does |
| DmacEngine.Pass | hw/gx/dw_ahb_dmac.c:249-291 | one evaluation of the loop condition and body keeps the controller well formed; `PassConfined` states what it may touch |
| DmacEngine.ChannelRun | hw/gx/dw_ahb_dmac.c:249-291 | the transfer loop keeps the controller well formed; `ChannelRunConfined` states what it may touch |
| DmacEngine.ProcessFrom | hw/gx/dw_ahb_dmac.c:230-292 | processing keeps the global enable, the masks and the handshake levels, never enables a channel, and keeps the invariant and the line in step with the flags; the flag it returns says whether a channel used up the fuel, and processing stops there |
| DmacEngine.Process | hw/gx/dw_ahb_dmac.c:226-297 | `_dw_ahb_dmac_process` keeps the invariant and the interrupt line in step with the flags, and returns whether a channel used up the fuel |
| DmacEngine.ConfinedRefl | hw/gx/dw_ahb_dmac.c:230-232 | doing nothing is confined to any channel |
| DmacEngine.SetChannelConfined | hw/gx/dw_ahb_dmac.c:94 | rewriting channel `i`'s registers touches only channel `i` |
| DmacEngine.ChannelMastersConfined | hw/gx/dw_ahb_dmac.c:272 | rewriting channel `i`'s registers and the masters' memory touches no other channel (also lines 283-290) |
| DmacEngine.RaiseIfConfined | hw/gx/dw_ahb_dmac.c:100-101 | raising an interrupt for channel `i` touches no other channel's flags and keeps the line in step |
| DmacEngine.FaultConfined | hw/gx/dw_ahb_dmac.c:98-104 | the error path touches only channel `i` |
| DmacEngine.LastBlockConfined | hw/gx/dw_ahb_dmac.c:124-132 | closing the last block touches only channel `i` |
| DmacEngine.EndOfBlockConfined | hw/gx/dw_ahb_dmac.c:120-158 | one pass of the block-end loop touches only channel `i` |
| DmacEngine.ReloadLoopConfined | hw/gx/dw_ahb_dmac.c:119-159 | the whole block-end loop touches only channel `i` |
| DmacEngine.ChannelGateConfined | hw/gx/dw_ahb_dmac.c:92-161 | `check_channel` touches only channel `i` |
| DmacEngine.ReadUnitConfined | hw/gx/dw_ahb_dmac.c:252-269 | the source read touches only channel `i` |
| DmacEngine.WriteUnitConfined | hw/gx/dw_ahb_dmac.c:271-290 | the destination write touches only channel `i` and memory |
| DmacEngine.TransferUnitConfined | hw/gx/dw_ahb_dmac.c:251-290 | one loop body touches only channel `i` and memory |
| DmacEngine.SrcGateConfined | hw/gx/dw_ahb_dmac.c:164-189 | `check_src` touches only channel `i` |
| DmacEngine.DstGateConfined | hw/gx/dw_ahb_dmac.c:192-217 | `check_dst` touches only channel `i` |
| DmacEngine.PassConfined | hw/gx/dw_ahb_dmac.c:249-291 | one loop iteration touches only channel `i`: other channels, masks, handshakes and the global enable stay, channel `i` only loses its enable and gains raw flags, and the line stays in step |
| DmacEngine.ChannelRunConfined | hw/gx/dw_ahb_dmac.c:249-291 | the whole transfer loop of channel `i` touches only channel `i` |
| DmacEngine.Handshake | hw/gx/dw_ahb_dmac.c:299-305 | a handshake input sets exactly that input's level and changes nothing else |
| DmacEngine.ResetState | hw/gx/dw_ahb_dmac.c:718-738 | reset clears every raw and mask flag, the global and channel enables, the handshake levels and all channel registers, keeping memory and the line |
| DmacEngine.SuspendedChannelRefused | hw/gx/dw_ahb_dmac.c:97-105 | a suspended channel is refused and disabled, registers untouched, with the error flag raised exactly when INT_EN is set |
| DmacEngine.PeripheralFlowRefused | hw/gx/dw_ahb_dmac.c:107-116 | a peripheral-flow-controlled channel is refused and disabled, with the error flag raised exactly when INT_EN is set |
| DmacEngine.BlockInProgress | hw/gx/dw_ahb_dmac.c:119 | a channel with transfers left in its block passes `check_channel` with nothing changed (also lines 160) |
| DmacEngine.LastBlockCloses | hw/gx/dw_ahb_dmac.c:119-133 | a finished block with no next item sets DONE, clears the count, disables the channel, and raises the block and transfer flags exactly when INT_EN is set |
| DmacEngine.NextItemLoaded | hw/gx/dw_ahb_dmac.c:119-160 | a finished block whose next item has a non-zero size loads that item, raises the block flag per the item's INT_EN, keeps every enable and lets the channel through |
| DmacEngine.EndOfBlockLoads | hw/gx/dw_ahb_dmac.c:135-158 | when the next item can be fetched the channel is reloaded from it and stays enabled |
| DmacEngine.ItemFetchFails | hw/gx/dw_ahb_dmac.c:136-146 | an item that cannot be fetched leaves DONE set, disables the channel and raises the error flag exactly when INT_EN is set |
| DmacEngine.EmptySelfLinkedItemSpins | hw/gx/dw_ahb_dmac.c:119-159 | an item of block size 0 that links to itself keeps the block-end loop going for as long as it is followed |
| DmacEngine.UnitMovesData | hw/gx/dw_ahb_dmac.c:251-290 | with both sides mapped, the destination holds the bytes read from the source, SAR and DAR move by their widths per SINC/DINC, the count goes up by one, and no flag or enable changes |
| DmacEngine.UnitDestinationFails | hw/gx/dw_ahb_dmac.c:271-280 | an unmapped destination leaves memory as it was, keeps the advanced SAR, disables the channel and raises the error flag exactly when INT_EN is set |
| DmacEngine.UnreadableSourceStep | hw/gx/dw_ahb_dmac.c:249-261 | an unreadable memory source faults and the loop condition is asked again: the loop does not look at the enable bit, so the faulting pass repeats |
| DmacEngine.KeptChannel | hw/gx/dw_ahb_dmac.c:230-237 | a step confined to channel `i` leaves every other channel's registers and enable as they were |
| DmacEngine.DisabledChannelsUntouched | hw/gx/dw_ahb_dmac.c:230-232 | processing leaves a disabled channel's registers unchanged |
| DmacEngine.NothingEnabledIdle | hw/gx/dw_ahb_dmac.c:230-232 | with no channel enabled, processing changes nothing and reports no spent fuel |
| DmacEngine.SpinningChannelEndsRun | hw/gx/dw_ahb_dmac.c:249-291 | once channel `i` uses up the fuel, processing ends with that channel's result and the flag set, and every later channel keeps its registers and its enable bit |
| DmacAccess.Decode | hw/gx/dw_ahb_dmac.c:426-429 | exactly the offsets up to channel 7's DSR decode to a channel register, with channel at most 7 and an in-channel offset below the stride; interrupt registers carry one of the five kinds (also lines 586-590) |
| DmacAccess.DecodeOffset | hw/gx/dw_ahb_dmac_regs.h:180-194 | every named register's offset decodes back to that register (also lines 252-276, 472-491) |
| DmacAccess.DecodeIntOffset | hw/gx/dw_ahb_dmac_regs.h:252-274 | the raw, status, mask and clear offsets of each kind decode back to that register |
| DmacAccess.DecodeFixedOffset | hw/gx/dw_ahb_dmac_regs.h:276-294 | the fixed registers' offsets decode back to them (also lines 472-491) |
| DmacAccess.DecodeChannelRegs | hw/gx/dw_ahb_dmac.c:373-376 | the offset of register `r` of channel `c` decodes to channel `c`, register `r` |
| DmacAccess.ChannelRead | hw/gx/dw_ahb_dmac.c:373-416 | CTL_H reads the transfer count while the channel is enabled and the register otherwise; the status registers read 0 |
| DmacAccess.IntStatus | hw/gx/dw_ahb_dmac.c:73-82 | the combined status has one bit per kind, at most 0x1F |
| DmacAccess.IntStatusIrq | hw/gx/dw_ahb_dmac.c:73-88 | the combined status is non-zero exactly when some channel has the raw and the mask flag of some kind set, the level `update_irq` drives |
| DmacAccess.RawRead | hw/gx/dw_ahb_dmac.c:431-440 | a raw register reads the packed raw flags of its kind |
| DmacAccess.MaskRead | hw/gx/dw_ahb_dmac.c:451-460 | a mask register reads the packed mask flags of its kind |
| DmacAccess.StatusPackedRead | hw/gx/dw_ahb_dmac.c:441-450 | a status register reads the packed raw flags ANDed with the packed mask flags |
| DmacAccess.StatusRead | hw/gx/dw_ahb_dmac.c:441-450 | a status register reads raw AND mask, and is non-zero exactly when its kind's bit of the combined status is set (also lines 76-80) |
| DmacAccess.ChannelWrite | hw/gx/dw_ahb_dmac.c:523-577 | a channel write changes only the addressed channel's registers |
| DmacAccess.UpdateIrq | hw/gx/dw_ahb_dmac.c:84-88 | the line is recomputed from the flags and nothing else changes |
| DmacAccess.Write | hw/gx/dw_ahb_dmac.c:579-716 | every write keeps the controller well formed; its effect per register is stated by the lemmas below |
| DmacAccess.WriteKeepsInv | hw/gx/dw_ahb_dmac.c:579-716 | no write enables a channel while the controller is off, and every write leaves the line in step with the flags |
| DmacAccess.ChannelWriteRead | hw/gx/dw_ahb_dmac.c:523-577 | a written channel register reads back the value, CFG_L with bit 9 set, CTL_H the transfer count while enabled, and the status registers 0 (also lines 373-416) |
| DmacAccess.RawWriteRead | hw/gx/dw_ahb_dmac.c:592-616 | a raw register reads back the low byte of the value written |
| DmacAccess.MaskWriteRead | hw/gx/dw_ahb_dmac.c:624-643 | a mask register reads back `masked_value(old, (value >> 8) & 0xFF, value)` |
| DmacAccess.MaskWriteNoEnable | hw/gx/dw_ahb_dmac.c:518-521 | a mask write with no write-enable bit changes nothing (also lines 624-643) |
| DmacAccess.ClearWriteRead | hw/gx/dw_ahb_dmac.c:644-663 | a clear write leaves the raw register of its kind as `raw & ~(value & 0xFF)` |
| DmacAccess.DmaCfgWriteOff | hw/gx/dw_ahb_dmac.c:677-682 | writing DMA_CFG with bit 0 clear turns the controller off and every channel with it |
| DmacAccess.ChEnIgnoredWhileOff | hw/gx/dw_ahb_dmac.c:683-692 | a CH_EN write while the controller is off changes nothing and starts nothing |
| DmacAccess.ChEnWrite | hw/gx/dw_ahb_dmac.c:683-689 | with the controller on, CH_EN reads back the masked value and the engine is started exactly when some channel is enabled |
| DmacAccess.ResetReads | hw/gx/dw_ahb_dmac.c:418-514 | after reset the identification and parameter registers read their constants (ID 0x02080901, COMP_ID 0x44571110, LP timeout 8, the parameter words) and every other register reads 0 (also lines 718-738) |
| DmacController.ReloadLoopStep | hw/gx/dw_ahb_dmac.c:119 | an unfinished block leaves the loop at once; a finished one with no fuel left is reported as such |
| DmacController.ReloadLoopNext | hw/gx/dw_ahb_dmac.c:119-159 | one pass of the block-end loop continues with the loaded item or closes the channel |
| DmacController.Controller.constructor | hw/gx/dw_ahb_dmac.c:718-738 | a new controller is in the reset state, with the interrupt line low (also lines 779-791) |
| DmacController.Controller.Reset | hw/gx/dw_ahb_dmac.c:718-738 | `_dw_ahb_dmac_reset` leaves the object in `ResetState` of its old state |
| DmacController.Controller.SetHandshake | hw/gx/dw_ahb_dmac.c:299-305 | a handshake input records its level and asks the engine to run when the level is high; a controller that keeps the invariant with its line in step still does |
| DmacController.Controller.Write | hw/gx/dw_ahb_dmac.c:579-716 | `_dw_ahb_dmac_write` updates the object as `DmacAccess.Write` describes and reports whether the engine is started; a controller that keeps the invariant with its line in step still does |
| DmacController.Controller.Raise | hw/gx/dw_ahb_dmac.c:100-101 | sets channel `i`'s raw flag and drives the line from the flags |
| DmacController.Controller.Fail | hw/gx/dw_ahb_dmac.c:98-104 | the error path updates the object as `Fault` describes |
| DmacController.Controller.EndBlock | hw/gx/dw_ahb_dmac.c:120-158 | one pass of the block-end loop updates the object as `EndOfBlock` describes |
| DmacController.Controller.FinishTransfer | hw/gx/dw_ahb_dmac.c:124-132 | the end of the last block updates the object as `LastBlock` describes |
| DmacController.Controller.LoadItem | hw/gx/dw_ahb_dmac.c:148-158 | the item is loaded into channel `i` and its block flag raised per the item's INT_EN |
| DmacController.Controller.CheckChannel | hw/gx/dw_ahb_dmac.c:92-161 | `_dw_ahb_dmac_check_channel` updates the object and answers as `ChannelGate` |
| DmacController.Controller.CloseBlocks | hw/gx/dw_ahb_dmac.c:119-160 | the block-end `while` loop updates the object and answers as `ReloadLoop` |
| DmacController.Controller.CheckSrc | hw/gx/dw_ahb_dmac.c:164-189 | `_dw_ahb_dmac_check_src` updates the object and answers as `SrcGate` |
| DmacController.Controller.CheckDst | hw/gx/dw_ahb_dmac.c:192-217 | `_dw_ahb_dmac_check_dst` updates the object and answers as `DstGate` |
| DmacController.Controller.ReadSource | hw/gx/dw_ahb_dmac.c:251-269 | the source read updates the object and returns the data as `ReadUnit` |
| DmacController.Controller.WriteDest | hw/gx/dw_ahb_dmac.c:271-290 | the destination write updates the object as `WriteUnit` |
| DmacController.Controller.MoveUnit | hw/gx/dw_ahb_dmac.c:251-290 | the loop body updates the object as `TransferUnit` |
| DmacController.Controller.RunChannel | hw/gx/dw_ahb_dmac.c:249-291 | the transfer `while` loop of one channel updates the object as `ChannelRun` |
| DmacController.Controller.Process | hw/gx/dw_ahb_dmac.c:226-297 | `_dw_ahb_dmac_process` updates the object and returns the flag exactly as `DmacEngine.Process`, which keeps the invariant and the line in step; it returns at the first channel that uses up the fuel, and a controller in step before stays in step |
| GuestMemory.MappedNothing | hw/gx/dw_ahb_dmac.c:253 | an access of no bytes always goes through |
| GuestMemory.ReadBytes | hw/gx/dw_ahb_dmac.c:253-261 | an `address_space_read` of `n` bytes succeeds exactly when every byte is backed, and then returns those bytes in order |
| GuestMemory.StoreNothing | hw/gx/dw_ahb_dmac.c:272 | storing no bytes changes nothing |
| GuestMemory.WriteBytes | hw/gx/dw_ahb_dmac.c:272-280 | an `address_space_write` succeeds exactly when every byte is backed |
| GuestMemory.StoreStores | hw/nationalchip/dwc_sdhc.c:186 | a write into backed memory puts the data at the address, maps and unmaps nothing, and leaves every other byte as it was |
| GuestMemory.StoreKeepsMapped | hw/nationalchip/dwc_sdhc.c:186 | a write never unbacks a byte, so a run that was mapped stays mapped |
| GuestMemory.StoreKeys | hw/nationalchip/dwc_sdhc.c:186 | a write into backed memory keeps the set of backed addresses |
| GuestMemory.WriteBytesStores | hw/gx/dw_ahb_dmac.c:272 | a successful write stores the data at the address and leaves every other byte and the set of backed addresses alone |
| GuestMemory.WriteThenRead | hw/gx/dw_ahb_dmac.c:253 | bytes written read back unchanged (also lines 272) |
| GuestMemory.LeBytes | hw/gx/dw_ahb_dmac.c:137-138 | the four bytes of a word, least significant first, reassemble to the word |
| GuestMemory.LeBytesOfWord | hw/gx/dw_ahb_dmac.c:137-138 | splitting a word assembled from four bytes gives the bytes back |
| GuestMemory.WordsOf | hw/gx/dw_ahb_dmac.c:137-138 | word `k` of a byte run is the little-endian word at bytes `4k .. 4k+3` |
| GuestMemory.BytesOf | hw/gx/dwc_emac.c:400 | a run of words occupies four bytes per word |
| GuestMemory.BytesOfNil | hw/gx/dwc_emac.c:400 | no words take no bytes |
| GuestMemory.BytesOfCons | hw/gx/dwc_emac.c:400 | the bytes of a word list are the first word's bytes followed by the rest's |
| GuestMemory.BytesOfAt | hw/gx/dwc_emac.c:400 | bytes `4k .. 4k+3` of a run of words are the bytes of word `k` |
| GuestMemory.WordsOfBytesOf | hw/gx/dwc_emac.c:370 | decoding the bytes of a list of words gives the words back (also lines 400) |
| GuestMemory.ReadWords | hw/nationalchip/dwc_sdhc.c:209 | reading `n` words succeeds exactly when all `4n` bytes are backed, and gives `n` words |
| GuestMemory.WriteWords | hw/gx/dwc_emac.c:400 | writing words succeeds exactly when all their bytes are backed |
| GuestMemory.WriteWordsThenRead | hw/gx/dwc_emac.c:370 | words written read back unchanged (also lines 400) |
| GuestMemory.Load | hw/gx/dwc_emac.c:370 | `cpu_physical_memory_read` never fails: it returns `n` bytes, and a byte nothing backs reads as zero (also lines 451) |
| GuestMemory.LoadIsRead | hw/gx/dwc_emac.c:451 | where every byte is backed, the CPU-side read returns what the checked read does |
| GuestMemory.Put | hw/gx/dwc_emac.c:400 | `cpu_physical_memory_write` never fails: it maps and unmaps nothing and leaves every byte outside the range as it was (also lines 579) |
| GuestMemory.PutIsWrite | hw/gx/dwc_emac.c:579 | where every byte is backed, the CPU-side write is the checked one |
| GuestMemory.PutThenLoad | hw/gx/dwc_emac.c:451 | bytes put into backed memory load back unchanged (also lines 579) |
| GuestMemory.PutThenWord | hw/gx/dwc_emac.c:370 | a word put into backed memory reads back as that word (also lines 400) |
| GuestMemory.PutKeepsMapped | hw/gx/dwc_emac.c:579 | a CPU-side write keeps every backed run backed |
| GuestMemory.PutElsewhere | hw/gx/dwc_emac.c:400 | a CPU-side write leaves loads of bytes outside its range as they were (also lines 579) |
| GxAhci.Shown | hw/gx/gx_ahci.c:58-67 | a read of PHYCS0R shows bit 29 (0x2 shifted left by 28) as 1 and every other bit as stored, a read of PHYCS2R clears bit 24 and keeps the rest, and any other register reads as stored |
| GxAhci.WriteThenRead | hw/gx/gx_ahci.c:53-80 | a written word reads back with the two fix-ups applied (and unchanged for the other registers); writing one register leaves the reads of every other register unchanged |
| GxAhci.ReadWriteBackStable | hw/gx/gx_ahci.c:58-66 | writing back a value just read leaves that register's read unchanged: the fix-ups are idempotent |
| GxAhci.GxAhciState.constructor | hw/gx/gx_ahci.c:90-99 | the bank starts as 32 zero words |
| GxAhci.GxAhciState.Read | hw/gx/gx_ahci.c:53-70 | `gx_ahci_mem_read` returns `Shown` of the stored word at `addr / 4` |
| GxAhci.GxAhciState.Write | hw/gx/gx_ahci.c:72-80 | `gx_ahci_mem_write` stores the word at `addr / 4` and changes nothing else |
| Watchdog.ParamWordValue | hw/gx/dw_apb_wdt.c:21-37 | COMP_PARAM_1, packed from the configured parameters, is 0x10000242 |
| Watchdog.CrWordFields | hw/gx/dw_apb_wdt.c:93-94 | the CR word that a read returns gives back the enable, response-mode, pulse-length and bit-5 fields it was packed from |
| Watchdog.TimeoutMsIsTicksPerKilo | hw/gx/dw_apb_wdt.c:166 | the period for range `top` is 2^(top+16) × 1000 / 1 MHz, that is 2^(top+16) / 1000 ms |
| Watchdog.TimeoutMonotone | hw/gx/dw_apb_wdt.c:166 | a larger timeout range never gives a shorter period, and the reset period (top 0) is 65 ms (also lines 228) |
| Watchdog.Wdt.RestartTimer | hw/gx/dw_apb_wdt.c:44-50 | an enabled watchdog records `now` as its start and arms the timer at `now + timeout`; a disabled one changes nothing |
| Watchdog.Wdt.Reset | hw/gx/dw_apb_wdt.c:219-230 | reset disables the watchdog, selects interrupt mode, zeroes the pulse length, `top` and `top_init`, sets the 65 ms period and clears STAT; the timer and the line are left as they were |
| Watchdog.Wdt.Expire | hw/gx/dw_apb_wdt.c:60-80 | in interrupt mode (CR.RMOD set) the first expiry sets STAT and raises the line; an enabled watchdog is re-armed at `now + timeout` with `now` as its start, a disabled one keeps its start and is left unarmed; a second expiry and reset mode change nothing but the fired timer, which is no longer pending, and keep the start; the configuration is kept |
| Watchdog.Wdt.Read | hw/gx/dw_apb_wdt.c:82-125 | the value returned is `ReadValue` of the state before the read (0 for unaligned or unmapped offsets, CCVR from the clock); an EOI read clears STAT and the line and does `Restarted`: an enabled timer restarts (start `now`, armed for `now + timeout`), a disabled one keeps start and timer; any other read changes nothing |
| Watchdog.Wdt.Write | hw/gx/dw_apb_wdt.c:127-183 | CR keeps a set enable bit sticky, takes the response mode, pulse length and bit 5, keeps `top`, `top_init`, the period and the line, and restarts the timer on the first enable and keeps it otherwise; TORR takes `top`, recomputes the period and keeps every other field, the timer and the start included; CRR with 0x76 clears STAT and the line, does `Restarted` and keeps the configuration; every other write (unaligned, read-only, no restart command) changes nothing |
| Watchdog.Wdt.WriteCr | hw/gx/dw_apb_wdt.c:137-155 | the enable bit can be set but never cleared, the first enable does `Restarted` (start `now`, timer armed), any other write keeps the start and timer; the response mode, pulse length and bit 5 follow the value; `top`, `top_init`, the period, STAT and the line are kept |
| Watchdog.Wdt.WriteTorr | hw/gx/dw_apb_wdt.c:157-168 | TORR reads back the new `top` with the old `top_init` (the dual-top option is off), and the period becomes `TimeoutMs(top)`; CR, STAT, the line, the start and the timer are kept |
| Watchdog.Wdt.WriteCrr | hw/gx/dw_apb_wdt.c:170-180 | the restart command 0x76 in the low byte clears STAT and the line and does `Restarted` (an enabled timer restarts at `now`, a disabled one is left alone); any other value changes nothing; CR and TORR are kept |
| Watchdog.CrUpdate | hw/gx/dw_apb_wdt.c:137-155 | the CR word after a write is the old enable bit ORed with bits 0-5 of the value |
| Watchdog.TorrUpdate | hw/gx/dw_apb_wdt.c:157-165 | the TORR word after a write is the value's low nibble with the old `top_init` nibble |
| DwUart.CodeRoundTrip | hw/gx/dw_apb_uart.c:51-54 | each interrupt identity has its own IIR code (0x1, 0x2, 0x4), and decoding the code gives the identity back |
| DwUart.IrqNeedsIdentityAndEnable | hw/gx/dw_apb_uart.c:56-62 | the line is low with no pending identity, follows IER bit 1 for THR-empty and IER bit 0 for received data, and is low when both enables are clear |
| DwUart.RxTrigger | hw/gx/dw_apb_uart.c:160-184 | the trigger level is one of 1, 4, 8 and 14, and is 1 with the FIFO off |
| DwUart.RxTriggerTable | hw/gx/dw_apb_uart.c:163-181 | with the FIFO on, FCR bits 6-7 index the table [1, 4, 8, 14] |
| DwUart.RxTriggerMonotone | hw/gx/dw_apb_uart.c:165-177 | a larger trigger selector never gives a lower level |
| DwUart.LsrWord | hw/gx/dw_apb_uart.c:35-42 | LSR packs TEMT, THRE, OE and DR at 0x40, 0x20, 0x2 and 0x1 and nothing else |
| DwUart.UsrWord | hw/gx/dw_apb_uart.c:45-49 | USR packs RFF and RFNE at 0x10 and 0x8, and TFE and TFNF always read set |
| DwUart.DwApbUart.constructor | hw/gx/dw_apb_uart.c:353-370 | the reset values: empty queue, trigger 1, DLH 0x4, IIR 0x1, LSR 0x60, USR 0x6, every other register zero, lines low |
| DwUart.DwApbUart.Update | hw/gx/dw_apb_uart.c:56-68 | the interrupt line is `IrqLevel(identity, IER)`, the transmit DMA request is always high, and the receive DMA request follows LSR.DR |
| DwUart.DwApbUart.CanReceive | hw/gx/dw_apb_uart.c:258-268 | with the FIFO on there is room exactly while fewer than 16 entries are queued; with it off the model's count is always zero, so there is always room |
| DwUart.DwApbUart.Receive | hw/gx/dw_apb_uart.c:271-308 | an empty buffer changes nothing; otherwise the first byte is appended to the queue (FIFO on) or replaces the holding register (FIFO off), DR, RFNE and the received-data identity are set, RFF is set by the sixteenth entry (or always with the FIFO off), and OE records a byte arriving while RFF was set |
| DwUart.DwApbUart.ReceiveHolding | hw/gx/dw_apb_uart.c:279-291 | with the FIFO off the byte replaces entry 0 and DR, RFF, RFNE and the received-data identity are set |
| DwUart.DwApbUart.ReceiveFifo | hw/gx/dw_apb_uart.c:279-307 | with the FIFO on the byte is appended to the queue, and RFF is set exactly when the count reaches 16 |
| DwUart.DwApbUart.PushEntry | hw/gx/dw_apb_uart.c:294-299 | the ring store at `(pos + count) mod 16` appends the entry to the queue |
| DwUart.DwApbUart.PopEntry | hw/gx/dw_apb_uart.c:88-94 | advancing `rx_pos` (wrapping at 16) and decrementing the count drops the oldest entry |
| DwUart.DwApbUart.ReadRbr | hw/gx/dw_apb_uart.c:86-111 | with the FIFO on, the oldest entry is returned and leaves the queue; from an empty queue the slot at `rx_pos` is returned and nothing moves; with the FIFO off entry 0 is returned; RFF clears, the identity becomes none and the line drops, and DR/RFNE clear once the queue is empty |
| DwUart.DwApbUart.TakeEntry | hw/gx/dw_apb_uart.c:88-98 | the FIFO half of an RBR read: pops the oldest entry when there is one, and clears DR and RFNE when the queue is left empty |
| DwUart.DwApbUart.ReadIir | hw/gx/dw_apb_uart.c:120-126 | the read returns IIR as it was, and a pending THR-empty identity is acknowledged to none |
| DwUart.DwApbUart.Read | hw/gx/dw_apb_uart.c:70-158 | word 0 is DLL with LCR bit 7 set (nothing changes), otherwise RBR with every effect `ReadRbr` states; word 2 returns IIR and acknowledges THR-empty, keeping the queue, DR, RFF and RFNE, and changes nothing when THR-empty was not pending; every other word returns its register (CPR 0x020002, UCV 0x3230312A, CTR 0x44570110, 0 for unmapped) and changes nothing |
| DwUart.DwApbUart.WriteThr | hw/gx/dw_apb_uart.c:209-219 | the low byte is appended to what the backend received, TEMT and THRE set, and the identity becomes THR-empty unless received data is pending |
| DwUart.DwApbUart.WriteIer | hw/gx/dw_apb_uart.c:224-228 | IER takes the value, the identity becomes THR-empty, and the line follows IER bit 1 |
| DwUart.DwApbUart.WriteFcr | hw/gx/dw_apb_uart.c:230-238 | FCR takes the value and the trigger follows it; toggling the FIFO enable or setting bit 1 empties the queue, otherwise the ring is kept (also lines 160-191) |
| DwUart.DwApbUart.Latch | hw/gx/dw_apb_uart.c:205-244 | a DLL or DLH write under DLAB, or an LCR or MCR write, stores its word and keeps every other register, the ring, the lines and the transmit side |
| DwUart.DwApbUart.Write | hw/gx/dw_apb_uart.c:193-256 | `Written` at word `offset / 4`: DLL/DLH with LCR bit 7 set, otherwise THR (`ThrWritten`) and IER (`IerWritten`); word 2 is FCR (`FcrWritten`, the queue emptied or kept), words 3 and 4 are LCR and MCR; each path names the fields it changes and keeps every other; writes to any other word change nothing |
| RingWindow.Push | hw/gx/dw_apb_uart.c:294-299 | writing the slot just past the newest entry and counting it appends the entry to the window |
| RingWindow.Pop | hw/gx/dw_apb_uart.c:89-94 | advancing the start (wrapping) and dropping one from the count removes the window's first entry |
| RingWindow.Window | hw/gx/dw_apb_uart.c:88-94 | a start index and a count over the buffer hold a queue of exactly `count` entries (also lines 294-299) |
| RingWindow.Tail | hw/gx/dw_apb_uart.c:294-295 | the slot a push writes is `(pos + count) mod capacity`, inside the buffer |
| RingWindow.Next | hw/gx/dw_apb_uart.c:89-91 | the start after a pop is `(pos + 1) mod capacity`, inside the buffer |
| DwUart.Code | hw/gx/dw_apb_uart.c:51-54 | every interrupt identity's IIR code lies in the low nibble |
| DwUart.Decode | hw/gx/dw_apb_uart.c:51-54 | a code that decodes to an identity is that identity's code |
| DwUart.DwApbUart.Queue | hw/gx/dw_apb_uart.c:88-94 | the receive queue the ring holds has exactly `rx_count` entries (also lines 294-299) |
| Watchdog.CrWord | hw/gx/dw_apb_wdt.c:93-94 | the CR word uses bits 0-5 only |
| Watchdog.RplOf | hw/gx/dw_apb_wdt.c:150-151 | the pulse length taken from a CR write is the 3-bit field at bits 2-4 |
| Watchdog.TorrWord | hw/gx/dw_apb_wdt.c:95-96 | the TORR word holds `top` and `top_init` in its low byte |
| SsiLink.SendConcat | hw/gx/dwc_ssi.c:62 | sending one batch of words on the bus and then another is the same as sending both in order; each word uses up one scripted answer (also lines 84, 118, 126) |
| SsiLink.RepliesAfter | hw/gx/dwc_ssi.c:62 | the answer to one word followed by the answers after it are the script's first n + 1 answers (also lines 84) |
| SsiLink.FlushShape | hw/gx/dwc_ssi.c:58-69 | the transmit loop empties the TX FIFO, puts its words on the bus in order, counts each one, and in TX_AND_RX mode queues exactly the first \|tx\| answers for reception (otherwise the receive side is untouched) |
| SsiLink.FillShape | hw/gx/dwc_ssi.c:83-88 | the receive loop clocks out `Room` zeros and queues their `Room` answers, leaving the transmit side alone |
| SsiLink.Room | hw/gx/dwc_ssi.c:83 | the receive loop takes in nothing exactly when the RX FIFO is full or NDF + 1 words have been received; otherwise it stops on whichever bound it reaches first |
| SsiLink.FillStops | hw/gx/dwc_ssi.c:83-88 | the receive loop never overfills the 32-word RX FIFO, and stops only on a full FIFO or once NDF + 1 words are in |
| SsiLink.FillFront | hw/gx/dwc_ssi.c:348-354 | after the receive step a data read finds a word, unless the FIFO was empty and every frame had been received; that word is the oldest queued one, or else the next answer on the bus |
| SsiLink.FlushBound | hw/gx/dwc_ssi.c:58-69 | the transmit loop grows the RX FIFO by \|tx\| in TX_AND_RX mode, keeping it within capacity exactly when both queues fit together, and leaves it alone in the other modes |
| SsiLink.AddrWords | hw/gx/dwc_ssi.c:104 | the address takes ceil(addr_l × 4 / 32) words, at most 2 |
| SsiLink.AddrByteCount | hw/gx/dwc_ssi.c:132 | a single-word address is ceil(addr_l × 4 / 8) bytes, at most 4 |
| SsiLink.InstBytes | hw/gx/dwc_ssi.c:115-120 | the instruction is sent as its low one or two bytes, least significant first |
| SsiLink.AddrBytes | hw/gx/dwc_ssi.c:132-138 | a single-word address is sent as its low bytes, most significant first |
| SsiLink.InstRoundTrip | hw/gx/dwc_ssi.c:115-120 | a receiver that reassembles the instruction bytes least significant first gets back the instruction word's low bytes |
| SsiLink.AddrRoundTrip | hw/gx/dwc_ssi.c:132-138 | a receiver that reassembles the address bytes most significant first gets back the address word's low bytes |
| SsiLink.ConsumedAsWritten | hw/gx/dwc_ssi.c:111-165 | the TX words the instruction-and-address phase pops, as written: one more than `Consumed` in standard framing with no address (the address pop at line 131 is unconditional) |
| SsiLink.AddressWordDropped | hw/gx/dwc_ssi.c:104-107 | the counterexample: SPI_CTRLR0 = 0x100 (standard framing, 8-bit instruction, no address) waits for one TX word but pops two and sends none of the second (also lines 130-139) |
| SsiLink.Consumed | hw/gx/dwc_ssi.c:104-107 | the corrected pop count: in standard and mixed framing exactly the level the phase waits for, so the phase never pops an empty FIFO |
| SsiLink.FrameSplits | hw/gx/dwc_ssi.c:111-157 | in standard and mixed framing the phase pops the instruction word and the address words, and sends the instruction part followed by the address part |
| SsiLink.Framed | hw/gx/dwc_ssi.c:111-165 | the phase as written leaves the TX FIFO without its first `ConsumedAsWritten` words |
| SsiLink.FramedIntended | hw/gx/dwc_ssi.c:104-165 | the phase as intended leaves the TX FIFO without its first `Consumed` words |
| SsiLink.IntendedKeepsData | hw/gx/dwc_ssi.c:104-157 | as intended, once the awaited level is reached the phase pops only words that are there, and the data words behind the instruction and address stay queued in order |
| SsiLink.AsWrittenDropsDataWord | hw/gx/dwc_ssi.c:130-139 | as written, a standard-framing command with no address puts the same bytes on the bus but also drops the first data word unsent; with any address the two versions agree |
| SsiLink.StandardFrame | hw/gx/dwc_ssi.c:111-139 | in standard framing with a single-word address, the bus carries the instruction's low bytes (LSB first) and then the address word's low ceil(addr_l × 4 / 8) bytes (MSB first), and both reassemble to the words' low bytes |
| SsiLink.WordFrame | hw/gx/dwc_ssi.c:123-128 | in the other standard and mixed framings the address words go out unchanged, in FIFO order, after the instruction bytes (also lines 141-157) |
| DwcSsi.Raised | hw/gx/dwc_ssi.c:72 | a transfer sets TXEIR when it runs the transmit step and RXFIR when the receive step passes the threshold, and no other RISR bit (also lines 91-92) |
| DwcSsi.Status | hw/gx/dwc_ssi.c:258-267 | SR has TFNF exactly when TX is not full, TFE exactly when it is empty, RFNE exactly when RX is not empty, RFF exactly when RX is full, and nothing else |
| DwcSsi.TxftlrWrite | hw/gx/dwc_ssi.c:453-460 | a TXFTLR write takes the threshold field only when it is below 32, and the start level (TXFTHR) always |
| DwcSsi.RxftlrWrite | hw/gx/dwc_ssi.c:463-469 | an RXFTLR write is taken exactly when the value is at most 32; otherwise the old value stays |
| DwcSsi.ImrWrite | hw/gx/dwc_ssi.c:472-478 | IMR keeps the seven defined mask bits of the value and clears the rest |
| DwcSsi.Stored | hw/gx/dwc_ssi.c:377-547 | a write changes only the register at its offset; CTRLR0, CTRLR1, BAUDR, RX_SAMPLE_DELAY and SPI_CTRLR0 are refused while enabled; plain registers take the value; TXFTLR, RXFTLR and IMR take it as their write rules say |
| DwcSsi.NormalShape | hw/gx/dwc_ssi.c:195-204 | the standard transfer sends every queued word in order and counts it; TX_ONLY leaves the receive side alone, TX_AND_RX queues one answer per word sent, and EEPROM read clocks words in after sending |
| DwcSsi.EnhancedFramesFirst | hw/gx/dwc_ssi.c:101-192 | once the enhanced transfer starts, the instruction and address words go out before anything else; in RX_ONLY and EEPROM read mode the data words stay queued, otherwise they follow on the bus and the TX FIFO drains |
| DwcSsi.Ssi.constructor | hw/gx/dwc_ssi.c:593-634 | a realized controller: every register zero, both FIFOs empty, every output line low, and the flash answering from the given script |
| DwcSsi.Ssi.UpdateIrq | hw/gx/dwc_ssi.c:36-39 | the interrupt line is high exactly when some raw status bit is unmasked |
| DwcSsi.Ssi.UpdateDma | hw/gx/dwc_ssi.c:41-52 | the transmit DMA request is the TX level at or below DMATDL with TDMAE set; the receive request is a non-empty RX FIFO with RDMAE set |
| DwcSsi.Ssi.Transfer | hw/gx/dwc_ssi.c:62 | one `ssi_transfer` puts the word on the bus and returns the next scripted answer (also lines 84) |
| DwcSsi.Ssi.Tx | hw/gx/dwc_ssi.c:55-77 | `_dwc_ssi_tx` leaves the link as `Flush` gives, raises TXEIR, and drives the interrupt and DMA lines |
| DwcSsi.Ssi.Drain | hw/gx/dwc_ssi.c:58-69 | the transmit loop leaves the link exactly as `Flush` gives |
| DwcSsi.Ssi.Rx | hw/gx/dwc_ssi.c:80-98 | `_dwc_ssi_rx` leaves the link as `Fill` gives; RXFIR is raised and the line driven exactly when the RX level is above RXFTLR; the DMA lines are driven |
| DwcSsi.Ssi.Clock | hw/gx/dwc_ssi.c:83-88 | the receive loop leaves the link exactly as `Fill` gives |
| DwcSsi.Ssi.RxSignal | hw/gx/dwc_ssi.c:91-97 | RXFIR and the line only above the threshold, then the DMA lines |
| DwcSsi.Ssi.SendLsbFirst | hw/gx/dwc_ssi.c:115-120 | the instruction loop sends exactly `InstBytes` |
| DwcSsi.Ssi.SendMsbFirst | hw/gx/dwc_ssi.c:132-138 | the address loop, counting down, sends exactly `AddrBytes` |
| DwcSsi.Ssi.SendWords | hw/gx/dwc_ssi.c:123-128 | popping k words and sending each leaves the TX FIFO without them and puts them on the bus in order (also lines 153-157) |
| DwcSsi.Ssi.SendZeros | hw/gx/dwc_ssi.c:173-174 | the wait-cycle loop clocks out exactly `wait_cycles` zero words |
| DwcSsi.Ssi.SendFrame | hw/gx/dwc_ssi.c:111-165 | the instruction-and-address phase pops `ConsumedAsWritten` words and puts `FrameWords` on the bus |
| DwcSsi.Ssi.SendInstruction | hw/gx/dwc_ssi.c:113-121 | the instruction word, if any, is popped and its bytes sent (also lines 143-151) |
| DwcSsi.Ssi.SendAddress | hw/gx/dwc_ssi.c:122-139 | the address is popped and sent as `AddrPart` (bytes of one word in standard framing, whole words otherwise) (also lines 152-157) |
| DwcSsi.Ssi.NormalXfer | hw/gx/dwc_ssi.c:195-204 | `_dwc_ssi_normal_xfer` leaves the link as `Normal` gives, raises TXEIR (and RXFIR in EEPROM read mode above the threshold), and drives the lines |
| DwcSsi.Ssi.EnhanceXfer | hw/gx/dwc_ssi.c:101-192 | `_dwc_ssi_enhance_xfer` leaves the link as `Enhanced` gives, marks the phase sent exactly when it started, and raises the RISR bits and drives the lines of the steps it ran |
| DwcSsi.Ssi.Prologue | hw/gx/dwc_ssi.c:103-177 | the phase, then in RX_ONLY mode the wait cycles and the receive step, leave the link as `Prelude` gives and mark the phase sent |
| DwcSsi.Ssi.Frame | hw/gx/dwc_ssi.c:111-165 | the phase on the link is `Framed` |
| DwcSsi.Ssi.Wait | hw/gx/dwc_ssi.c:171-177 | the wait cycles and then the receive step, as `Fill` after `Zeros` |
| DwcSsi.Ssi.StartXfer | hw/gx/dwc_ssi.c:509-513 | a data write's transfer is `Xfer`: standard with SPI_FRF zero, enhanced otherwise |
| DwcSsi.Ssi.WriteData | hw/gx/dwc_ssi.c:504-516 | the word is pushed onto the TX FIFO and, once a word has gone out since enabling or the TX level passes TXFTHR, the transfer runs with its RISR and line effects |
| DwcSsi.Ssi.Read | hw/gx/dwc_ssi.c:207-368 | TXOICR, RXOICR, RXUICR and MSTICR return their RISR bit as 0 or 1, clear it and drive the line; every other offset outside the data window returns `Peek` (SSIENR, levels, SR, ISR = IMR & RISR, RISR, IDR 0x20210205, version 0x3230312A, the stored registers, 0 elsewhere) and changes nothing |
| DwcSsi.Ssi.ReadData | hw/gx/dwc_ssi.c:341-355 | in TX_ONLY mode a data read returns 0 and changes nothing; otherwise it runs the receive step and pops the oldest RX word (the oldest queued one, or else the next answer) |
| DwcSsi.Ssi.Write | hw/gx/dwc_ssi.c:371-560 | the register file becomes `Stored`; SSIENR switches the controller and, when turned off, empties both FIFOs and the counters; SER and SSIENR drive the chip select; DMACR, DMATDLR and DMARDLR drive the DMA lines; TXFTLR and unhandled offsets drive the interrupt line |
| DwcSsi.Ssi.Configure | hw/gx/dwc_ssi.c:377-559 | a write outside SSIENR and the data window stores as `Stored` says and drives the lines its offset drives |
| DwcSsi.Ssi.Signal | hw/gx/dwc_ssi.c:433-437 | the chip select follows SER bit 0 (active low), the DMA settings drive the DMA lines, and unhandled offsets drive the interrupt line (also lines 480-502, 559) |
| DwcSsi.Ssi.SetEnable | hw/gx/dwc_ssi.c:403-430 | SSIENR bit 0 enables the controller and drives the chip select from SER; clearing it empties both FIFOs, zeroes both counters, forgets the sent phase and deselects the flash |
| DwcSsi.Ssi.Program | hw/gx/dwc_ssi.c:377-547 | the register file after a write is `Stored` |
| DwcSsi.Ssi.Reset | hw/gx/dwc_ssi.c:562-576 | reset disables the controller, empties both FIFOs, zeroes the counters and DMACR, DMATDLR and DMARDLR, and keeps every other register |
| DwcSsi.Ssi.Pop | hw/gx/dwc_ssi.c:114 | `fifo32_pop` on the TX FIFO returns its oldest word and removes it (also lines 125, 131) |
| SsiLink.Replies | hw/gx/dwc_ssi.c:58-66 | the answers to `n` words sent are the script's first `n` answers, 0 once the script has run out (also lines 83-87) |
| SsiLink.Shift | hw/gx/dwc_ssi.c:58-66 | one pass of the transmit loop takes exactly one word off the TX FIFO |
| SsiLink.Take | hw/gx/dwc_ssi.c:83-88 | one pass of the receive loop adds exactly one word to the RX FIFO |
| EmacPhy.Linked | hw/gx/dwc_emac.c:43-53 | link up raises LINK_ST and AN_COMP and adds the partner abilities TXFD, 10FD, 10 and CSMACD to ANLPAR, keeping every other bit; link down drops those two status bits and leaves ANLPAR as 100BASE-TX only; BMCR and ANAR never change |
| EmacPhy.LinkedIdempotent | hw/gx/dwc_emac.c:43-53 | reporting the same link state twice gives what reporting it once gives |
| EmacPhy.LinkBounce | hw/gx/dwc_emac.c:43-53 | a link that drops and comes back reports the same status as a link that stayed up, and the partner then advertises exactly 100BASE-TX plus the four abilities |
| EmacPhy.LinkedIs | hw/gx/dwc_emac.c:45-52 | the link update, field by field |
| EmacPhy.ResetPhy | hw/gx/dwc_emac.c:55-65 | reset loads BMCR 0x3100 (RESET clear) and ANAR 0x01E1; BMSR reads 0x786C with the link up and 0x7848 with it down, ANLPAR 0x01E1 or 0x0080 |
| EmacPhy.ResetThenLinked | hw/gx/dwc_emac.c:55-65 | a link change after a reset gives what a reset under the new link state gives (also lines 605-609) |
| EmacPhy.MdioRead | hw/gx/dwc_emac.c:67-105 | a PHY address other than the PHY's own reads 0xFFFF; PHYID1 and PHYID2 read 0x0000 and 0x8201; every register the PHY keeps no state for, implemented or not, reads zero |
| EmacPhy.AnarAnswers | hw/gx/dwc_emac.c:83-84 | a read of ANAR at the PHY's own address answers with ANAR |
| EmacPhy.MdioWrite | hw/gx/dwc_emac.c:108-152 | a BMCR write with RESET set resets the PHY under the current link state, other BMCR writes and all ANAR writes are stored, and writes to another address or any other register change nothing |
| EmacPhy.WriteThenRead | hw/gx/dwc_emac.c:67-152 | an ANAR word, or a BMCR word without RESET, reads back as written |
| EmacPhy.ResetSelfClears | hw/gx/dwc_emac.c:117-120 | after a BMCR write with RESET set, BMCR reads back its power-on value: the reset bit clears itself (also lines 57) |
| EmacPhy.ReadOnlyRegisters | hw/gx/dwc_emac.c:128-136 | writes to BMSR, PHYID1, PHYID2, ANLPAR and ANER leave every register's read unchanged |
| EmacPhy.ForeignWrite | hw/gx/dwc_emac.c:115 | a write addressed to another PHY leaves every register's read unchanged |
| EmacRing.Encoded | hw/gx/dwc_emac.c:258-340 | a descriptor is written back as 16 bytes (also lines 400) |
| EmacRing.DescRoundTrip | hw/gx/dwc_emac.c:367-401 | a descriptor written back into backed guest memory reads back unchanged |
| EmacRing.WordBack | hw/gx/dwc_emac.c:258-340 | each of the four words of a written-back descriptor reads back unchanged |
| EmacRing.EncodedWords | hw/gx/dwc_emac.c:258-340 | the encoding stores the four words one after another, each little-endian |
| EmacRing.DescOfWords | hw/gx/dwc_emac.c:367-370 | a descriptor is read from the four little-endian words at its address |
| EmacRing.Size1 | hw/gx/dwc_emac.c:279 | the transmit buffer 1 size is an 11-bit field, below 2048 |
| EmacRing.Size2 | hw/gx/dwc_emac.c:280 | the transmit buffer 2 size is an 11-bit field, below 2048 |
| EmacRing.FrameLength | hw/gx/dwc_emac.c:311 | the received frame length is a 14-bit field |
| EmacRing.FilledWord | hw/gx/dwc_emac.c:582-586 | word 0 of a filled receive descriptor has OWN clear, FS and LS set and the low 14 bits of the size in the length field |
| EmacRing.Released | hw/gx/dwc_emac.c:462 | a handed-back transmit descriptor has only OWN cleared; its other bits and words are kept |
| EmacRing.ReleasedKeepsEnd | hw/gx/dwc_emac.c:462 | handing a transmit descriptor back keeps its end-of-ring bit (also lines 384) |
| EmacRing.Filled | hw/gx/dwc_emac.c:582-586 | a filled receive descriptor is handed back with FS and LS set, the size truncated to 14 bits in the length field, and words 1-3 kept |
| EmacRing.FilledKeepsEnd | hw/gx/dwc_emac.c:583-587 | filling a receive descriptor keeps its end-of-ring bit (also lines 387) |
| EmacRing.NextDesc | hw/gx/dwc_emac.c:384-392 | after a descriptor that closes the ring the descriptor address goes back to the ring base; otherwise it moves 16 bytes plus the descriptor gap on, wrapping at 32 bits |
| EmacRing.DescSkip | hw/gx/dwc_emac.c:512 | the gap programmed through BUS_MODE, skip length times burst length divided by eight, is at most 244 |
| EmacRing.Segment | hw/gx/dwc_emac.c:451 | a segment is `tbs1` bytes long |
| EmacRing.SegmentIs | hw/gx/dwc_emac.c:421 | for a descriptor the walk takes (no buffer 2) the segment is the `tbs1 + tbs2` bytes read at buffer 1 (also lines 437, 451) |
| EmacRing.Packet | hw/gx/dwc_emac.c:454-457 | as written the packet sent is `SentAsWritten`; when whole frames are sent it is the frame assembled so far plus the last segment |
| EmacRing.TxStep | hw/gx/dwc_emac.c:413-465 | one loop pass keeps the frame buffer below 8192 bytes; a last segment sends a packet and empties the buffer; any other segment is appended to the buffer and nothing is sent |
| EmacRing.TxStepIs | hw/gx/dwc_emac.c:462-464 | a pass moves the transmit descriptor address to the next descriptor (also lines 384-392) |
| EmacRing.StepLosesNothing | hw/gx/dwc_emac.c:451-461 | when whole frames are sent, a pass loses and reorders no byte: sent bytes plus pending bytes grow by exactly the segment |
| EmacRing.StepStatus | hw/gx/dwc_emac.c:454-460 | a pass raises TI and NIS exactly when it closes a frame, and changes no other DMA_STATUS bit |
| EmacRing.WalkAppends | hw/gx/dwc_emac.c:413-465 | a walk only appends packets: those sent before stay in front, in order |
| EmacRing.WalkRaisesOnlyTxDone | hw/gx/dwc_emac.c:413-465 | a walk raises no DMA_STATUS bit but TI and NIS, and clears none |
| EmacRing.StepRaisesOnlyTxDone | hw/gx/dwc_emac.c:460 | one pass raises no DMA_STATUS bit but TI and NIS |
| EmacRing.WalkLosesNothing | hw/gx/dwc_emac.c:413-465 | when whole frames are sent, the bytes already sent plus the starting frame are a prefix of the bytes sent plus the frame left pending at the end of the walk |
| EmacRing.StepReleases | hw/gx/dwc_emac.c:462-464 | a descriptor the walk takes is written back with OWN clear, so the driver sees it returned |
| EmacRing.WalkTakes | hw/gx/dwc_emac.c:413-465 | a walk over a descriptor it takes is that pass followed by the rest of the walk |
| EmacRing.WalkSpent | hw/gx/dwc_emac.c:413 | a walk with no budget left changes nothing |
| EmacRing.WalkStops | hw/gx/dwc_emac.c:416-449 | the walk stops, changing nothing, at a descriptor the driver owns, one that uses buffer 2, or one whose segment would reach the 8192-byte frame size |
| EmacRing.SentAsWritten | hw/gx/dwc_emac.c:457 | the packet handed to the network has the length of the last segment only and is a prefix of the assembled frame |
| EmacRing.SentAsWrittenTruncates | hw/gx/dwc_emac.c:457 | a 100-byte segment followed by a 50-byte last segment goes out as the frame's first 50 bytes, not as the 150-byte frame |
| EmacRing.FrameSentWhole | hw/gx/dwc_emac.c:454-459 | when whole frames are sent, the packet closing a frame is exactly the frame so far plus the last segment |
| EmacRing.StepTruncates | hw/gx/dwc_emac.c:457 | as written, a frame of several segments goes out cut to the last segment's size, and not whole |
| EmacRing.SingleSegmentAgrees | hw/gx/dwc_emac.c:454-459 | a frame of one segment goes out the same either way |
| EmacRing.EmptyFrameSent | hw/gx/dwc_emac.c:457 | a segment that opens and closes its frame goes out whole even as written |
| DwcEmac.Stored | hw/gx/dwc_emac.c:495-533 | the register file keeps its 0x500 words after every write |
| DwcEmac.StoredCases | hw/gx/dwc_emac.c:501-533 | GMII_ADDR and BUS_MODE store the word with bit 0 cleared; XMT_POLL_DEMAND stores nothing; DMA_STATUS clears the bits written as one; the two ring bases also set their current descriptor addresss; any other word inside the file is stored as written; writes past it are dropped |
| DwcEmac.Transmitted | hw/gx/dwc_emac.c:403-466 | transmit work keeps the register file's size |
| DwcEmac.TransmittedTwice | hw/gx/dwc_emac.c:403-466 | transmit work on top of transmit work is one piece of transmit work |
| DwcEmac.TransmittedBase | hw/gx/dwc_emac.c:403-466 | transmit work leaves the transmit ring base alone |
| DwcEmac.TransmittedNothing | hw/gx/dwc_emac.c:403-466 | a walk that takes nothing leaves the register file as it was |
| DwcEmac.WriteThenRead | hw/gx/dwc_emac.c:474-533 | a word that is not VERSION and has no special meaning on write reads back as written |
| DwcEmac.StatusWriteClears | hw/gx/dwc_emac.c:519-521 | a DMA_STATUS write clears exactly the bits written as one and changes no other word |
| DwcEmac.BaseWriteSetsCurrent | hw/gx/dwc_emac.c:522-527 | writing a ring base also points the current descriptor at it |
| DwcEmac.VersionFixed | hw/gx/dwc_emac.c:481-483 | VERSION reads 0x0037 whatever is written anywhere |
| DwcEmac.SelfClearing | hw/gx/dwc_emac.c:509 | the MDIO busy bit and the software reset bit always read back clear; a transmit poll demand stores nothing (also lines 514, 516-518) |
| DwcEmac.OutOfRange | hw/gx/dwc_emac.c:484-487 | writes past the register file are dropped and reads there give zero (also lines 528-531) |
| DwcEmac.IrqLowered | hw/gx/dwc_emac.c:468-472 | acknowledging every pending status bit, or masking every source, lowers the interrupt line (also lines 519-521) |
| DwcEmac.CommandPhy | hw/gx/dwc_emac.c:504 | the PHY address field of a GMII_ADDR command gives back the address it was built from (also lines 507) |
| DwcEmac.CommandReg | hw/gx/dwc_emac.c:504 | the register field of a GMII_ADDR command gives back the register it was built from (also lines 507) |
| DwcEmac.CommandWrite | hw/gx/dwc_emac.c:503 | a command word is a write command exactly when it was built as one |
| DwcEmac.MdioRegs | hw/gx/dwc_emac.c:502-508 | the MDIO side effect keeps the register file's size |
| DwcEmac.MdioRoundTrip | hw/gx/dwc_emac.c:502-510 | writing GMII_DATA, then an MDIO write command for ANAR, then an MDIO read command for it, leaves the low half of the data in GMII_DATA |
| DwcEmac.DataWriteStores | hw/gx/dwc_emac.c:528-531 | a GMII_DATA write is kept as written |
| DwcEmac.WriteCommandStores | hw/gx/dwc_emac.c:503-504 | an MDIO write command for ANAR stores the low half of GMII_DATA in the PHY |
| DwcEmac.WriteCommandKeepsData | hw/gx/dwc_emac.c:503-509 | an MDIO write command leaves GMII_DATA as it was |
| DwcEmac.ReadCommandLoads | hw/gx/dwc_emac.c:506-509 | an MDIO read command for ANAR leaves the PHY's ANAR in GMII_DATA |
| DwcEmac.ReadCommandAnswers | hw/gx/dwc_emac.c:506-508 | an MDIO read command for ANAR loads GMII_DATA with the PHY's ANAR |
| DwcEmac.ReadCommandFields | hw/gx/dwc_emac.c:503-507 | an MDIO read command for ANAR carries the PHY address and register number and is not a write |
| DwcEmac.ReadCommandData | hw/gx/dwc_emac.c:506-508 | an MDIO read command loads GMII_DATA with the PHY's answer, zero-extended |
| DwcEmac.AddressKeepsData | hw/gx/dwc_emac.c:509 | storing GMII_ADDR leaves GMII_DATA alone |
| DwcEmac.Counted | hw/gx/dwc_emac.c:563-565 | a stored frame counts one more frame and its size in bytes; a multicast frame counts as multicast, a broadcast one as broadcast, a unicast one as neither (also lines 589-595) |
| DwcEmac.Received | hw/gx/dwc_emac.c:549-603 | a reception keeps the register file's size |
| DwcEmac.ReceivedRunt | hw/gx/dwc_emac.c:566-570 | a frame shorter than 12 bytes is refused with -1 and raises RI and NIS, changing nothing else |
| DwcEmac.ReceivedDropped | hw/gx/dwc_emac.c:572-577 | with the current receive descriptor owned by the driver the frame is dropped, RU and AIS are raised and its length is returned |
| DwcEmac.ReceivedDelivered | hw/gx/dwc_emac.c:579-598 | a free descriptor takes the frame into buffer 1, is handed back filled with the length plus four CRC bytes, the descriptor address moves on, RI and NIS are raised, the counters are updated and the length plus four is returned |
| DwcEmac.ReceivedStoresFrame | hw/gx/dwc_emac.c:579-587 | when the buffer and the descriptor are backed and apart, the frame loads back from buffer 1, and the descriptor reads back handed to the driver, holding one whole frame whose length field is the frame's length plus four |
| DwcEmac.Initial | hw/gx/dwc_emac.c:634-638 | the register file comes up zero except the station address, bytes 0-3 in ADDR_LOW(0) and bytes 4-5 in ADDR_HIGH(0), first byte lowest |
| DwcEmac.Emac.constructor | hw/gx/dwc_emac.c:618-642 | realize gives the initial register file, the PHY reset under the link state, no descriptor gap, nothing sent, the line low and zero counters |
| DwcEmac.Emac.SetLinkStatus | hw/gx/dwc_emac.c:605-609 | a link change records the new state and applies it to the PHY |
| DwcEmac.Emac.UpdateIrq | hw/gx/dwc_emac.c:468-472 | the line is high exactly while an enabled DMA_STATUS bit is pending |
| DwcEmac.Emac.Read | hw/gx/dwc_emac.c:474-493 | a register read gives `ReadOf` of the register file |
| DwcEmac.Emac.ReadDesc | hw/gx/dwc_emac.c:367-377 | the descriptor read is the one at the current receive or transmit descriptor address |
| DwcEmac.Emac.WriteDesc | hw/gx/dwc_emac.c:379-401 | the descriptor address moves to `NextDesc`, no other register changes, and the descriptor is written where the descriptor address was |
| DwcEmac.Emac.Send | hw/gx/dwc_emac.c:403-466 | a poll demand walks the transmit ring as written from the current descriptor; only DMA_STATUS and the current transmit descriptor address change among the registers |
| DwcEmac.Emac.Transmit | hw/gx/dwc_emac.c:421-464 | one loop pass does what `TxStep` as written specifies, and only DMA_STATUS and the current transmit descriptor address change among the registers |
| DwcEmac.Emac.Mdio | hw/gx/dwc_emac.c:502-508 | a GMII_ADDR write hands GMII_DATA to the PHY for a write command and loads GMII_DATA from it for a read command |
| DwcEmac.Emac.Program | hw/gx/dwc_emac.c:509-532 | the register file becomes `Stored` of the write |
| DwcEmac.Emac.Write | hw/gx/dwc_emac.c:495-535 | a poll demand runs the transmit walk; a GMII_ADDR write runs the MDIO operation and stores the command; any other write changes the register file as `Stored` says and nothing else; BUS_MODE sets the descriptor gap; the line is recomputed in every case |
| DwcEmac.Emac.Acknowledge | hw/gx/dwc_emac.c:519-521 | DMA_STATUS loses the bits written as one and no other word changes |
| DwcEmac.Emac.Raise | hw/gx/dwc_emac.c:567 | DMA_STATUS gains the given bits and no other word changes (also lines 574, 597) |
| DwcEmac.Emac.Deliver | hw/gx/dwc_emac.c:579-595 | the frame goes to buffer 1, the filled descriptor is written back at the old descriptor address, the descriptor address moves on and the counters follow |
| DwcEmac.Emac.Receive | hw/gx/dwc_emac.c:543-603 | with reception stopped the frame is refused with -1 and nothing changes, the line included; otherwise the outcome is `Received`'s and the line is recomputed |
| SdhcLayout.ResetBlock | hw/nationalchip/dwc_sdhc.c:536-552 | the reset register block has 39 words, each the reset value of its word |
| SdhcLayout.PlainIndex | hw/nationalchip/dwc_sdhc.c:485-488 | an aligned write that takes the default path lands on a word inside the block that the controller keeps no state of its own for |
| SdhcLayout.CountOf | hw/gx/dwc_sdhc_regs.h:94 | BYTCNT as a count is below 2^32 |
| SdhcLayout.WordRoundTrip | hw/gx/dwc_sdhc_regs.h:94 | a BYTCNT word survives its trip through the count unchanged |
| SdhcLayout.StatusAfterReset | hw/nationalchip/dwc_sdhc.c:543-545 | the reset STATUS value 0x106 is the STATUS word of an empty FIFO under the reset watermarks |
| SdhcLayout.Answered | hw/nationalchip/dwc_sdhc.c:299-329 | a clock-update-only command leaves RINTSTS alone; any other raises command-done; no bit but command-done and response-timeout ever changes |
| SdhcLayout.AnsweredIs | hw/nationalchip/dwc_sdhc.c:308-329 | a sent command raises command-done, and response-timeout exactly when a response was expected and the card's was not of the expected length |
| SdhcLayout.IrqLevel | hw/nationalchip/dwc_sdhc.c:37-40 | the line is up exactly when some raw status bit is unmasked and CTRL enables interrupts |
| SdhcLayout.Mintsts | hw/nationalchip/dwc_sdhc.c:365-367 | MINTSTS shows only bits that are both raised and unmasked |
| SdhcLayout.SelfCleared | hw/nationalchip/dwc_sdhc.c:411-416 | after a CTRL write the controller and FIFO reset bits read clear and every other bit keeps the written value |
| SdhcLayout.ClearRaw | hw/nationalchip/dwc_sdhc.c:436-437 | a RINTSTS write clears exactly the written bits |
| SdhcLayout.TxWatermark | hw/gx/dwc_sdhc_regs.h:170-179 | the transmit watermark is a 12-bit field |
| SdhcLayout.RxWatermark | hw/gx/dwc_sdhc_regs.h:170-179 | the receive watermark is a 12-bit field |
| SdhcLayout.ResetWatermarks | hw/nationalchip/dwc_sdhc.c:545 | after reset the receive watermark is one below the FIFO depth and the transmit watermark zero |
| SdhcLayout.LevelOf | hw/nationalchip/dwc_sdhc.c:63-64 | the FIFO is empty exactly at count 0 and full exactly at 128 words; the receive watermark flag is count above the receive watermark, the transmit one count at or below the transmit watermark (also lines 73-74) |
| SdhcLayout.Requests | hw/nationalchip/dwc_sdhc.c:65-70 | RXDR ends up raised exactly when it was, or the card is being read and the count is above the receive watermark; TXDR likewise for writes at or below the transmit watermark; no other bit changes and nothing is lowered |
| SdhcLayout.StatusFields | hw/gx/dwc_sdhc_regs.h:152-168 | the count field of a STATUS word gives the count back, and its empty and full bits give the flags |
| SdhcLayout.StatusBits | hw/gx/dwc_sdhc_regs.h:152-168 | the bit-level core of the STATUS packing: the count and the four flag bits come back out |
| SdhcLayout.ClearIdsts | hw/nationalchip/dwc_sdhc.c:450-461 | an IDSTS write clears the TI, RI, FBE, DU, CES, NIS and AIS bits set in the value and nothing else |
| SdhcLayout.SkipLength | hw/gx/dwc_sdhc_regs.h:259-269 | the descriptor skip length is a 5-bit field |
| SdhcLayout.Descriptor.Size1 | hw/gx/dwc_sdhc_regs.h:482-489 | buffer 1 size is a 13-bit field |
| SdhcLayout.Descriptor.Size2 | hw/gx/dwc_sdhc_regs.h:482-489 | buffer 2 size is a 13-bit field |
| SdhcLayout.NextAsWritten | hw/nationalchip/dwc_sdhc.c:247-273 | the walk ends after the last descriptor; a chained one is followed by DES3, one at the end of the ring by the list base, any other by the descriptor DSL bytes on from its own start |
| SdhcLayout.AsWrittenOverlaps | hw/nationalchip/dwc_sdhc.c:272 | with a skip length below 16 (BMOD's reset value 0 among them) the next descriptor starts inside the current one's 16 bytes, and with skip 0 it is the same descriptor |
| SdhcLayout.NextDescriptor | hw/nationalchip/dwc_sdhc.c:247-273 | as `NextAsWritten`, except that an unchained descriptor is followed by the one DSL words after its own 16 bytes end |
| SdhcLayout.NextLeavesDescriptor | hw/nationalchip/dwc_sdhc.c:272 | with the corrected step the next descriptor starts exactly 16 + 4 × DSL bytes on, past the current one, and is never the current one |
| SdhcLayout.BeBytes | hw/nationalchip/dwc_sdhc.c:311 | a response word splits into four bytes |
| SdhcLayout.BeRoundTrip | hw/nationalchip/dwc_sdhc.c:311 | the bytes of a response word come back in the order they arrived, first byte most significant (also lines 315-318) |
| SdhcLayout.BeAtRoundTrip | hw/nationalchip/dwc_sdhc.c:315-318 | each packed word of a long response gives back its four bytes |
| SdhcLayout.PackResponse | hw/nationalchip/dwc_sdhc.c:308-322 | a response is packed exactly when a 4-byte answer meets a short command or a 16-byte answer a long one; a short one leaves RESP1-RESP3 zero |
| SdhcLayout.Unpack | hw/nationalchip/dwc_sdhc.c:308-319 | the registers of a short response stand for 4 bytes, those of a long one for 16 |
| SdhcLayout.ResponseRoundTrip | hw/nationalchip/dwc_sdhc.c:308-319 | reading RESP3 down to RESP0 back gives the card's response bytes in order: the packing loses nothing |
| SdhcData.Take | hw/nationalchip/dwc_sdhc.c:95-96 | taking n bytes from the card gives n bytes (also lines 182) |
| SdhcData.TakeElements | hw/nationalchip/dwc_sdhc.c:95-96 | what is taken is the card's own bytes, then zeros once it runs dry (also lines 182) |
| SdhcData.Drop | hw/nationalchip/dwc_sdhc.c:95-96 | after n bytes the card holds n fewer (also lines 182) |
| SdhcData.DropDrop | hw/nationalchip/dwc_sdhc.c:95-96 | taking bytes twice is taking their sum (also lines 182) |
| SdhcData.TakeSplit | hw/nationalchip/dwc_sdhc.c:182 | taking a + b bytes is taking a and then b from what is left |
| SdhcData.Less4 | hw/nationalchip/dwc_sdhc.c:102 | the 32-bit `bytcnt -= 4` stays below 2^32 and keeps the count's remainder modulo 4 (also lines 117) |
| SdhcData.LessWords | hw/nationalchip/dwc_sdhc.c:102 | any number of `bytcnt -= 4` stays below 2^32 (also lines 117) |
| SdhcData.LessWordsOnce | hw/nationalchip/dwc_sdhc.c:102 | n subtractions are one, then n - 1 (also lines 117) |
| SdhcData.CardWords | hw/nationalchip/dwc_sdhc.c:95-100 | the card yields the requested number of little-endian words |
| SdhcData.CardWordsOnce | hw/nationalchip/dwc_sdhc.c:95-100 | the card's words are its first word and then the words after its four bytes |
| SdhcData.Fill | hw/nationalchip/dwc_sdhc.c:95-103 | the card read keeps the FIFO within 128 words and the count below 2^32 |
| SdhcData.FillShape | hw/nationalchip/dwc_sdhc.c:95-103 | the card read appends the card's next n words to the FIFO in order, takes 4n card bytes, subtracts 4 from the count n times, sends the card nothing, and stops only with the FIFO full, the count spent or the card idle |
| SdhcData.FillOnce | hw/nationalchip/dwc_sdhc.c:95-103 | one round of the card read moves the card's next word into the FIFO |
| SdhcData.FillStops | hw/nationalchip/dwc_sdhc.c:95 | with the FIFO full, the count spent or the card idle the card read does nothing |
| SdhcData.Drain | hw/nationalchip/dwc_sdhc.c:105-118 | the card write keeps the FIFO within 128 words and the count below 2^32 |
| SdhcData.DrainShape | hw/nationalchip/dwc_sdhc.c:105-118 | the card write removes the k oldest words, the card receives exactly their bytes in FIFO order, the count drops by 4 per word, the card's data is untouched, and it stops only with the FIFO empty or the count spent |
| SdhcData.DrainOnce | hw/nationalchip/dwc_sdhc.c:105-118 | one round of the card write sends the oldest word, least significant byte first |
| SdhcData.DrainStops | hw/nationalchip/dwc_sdhc.c:105 | with the FIFO empty or the count spent the card write does nothing |
| SdhcData.Exchange | hw/nationalchip/dwc_sdhc.c:78-119 | the card exchange keeps the FIFO and the count in range |
| SdhcData.NoExchange | hw/nationalchip/dwc_sdhc.c:84-86 | without a data command the exchange moves nothing |
| SdhcData.Exchanged | hw/nationalchip/dwc_sdhc.c:78-127 | the transfer is the exchange, and data-transfer-over is raised exactly when a data command's count reaches zero |
| SdhcData.Leveled | hw/nationalchip/dwc_sdhc.c:43-75 | the level update touches neither the count nor the card |
| SdhcData.AfterUpdate | hw/nationalchip/dwc_sdhc.c:333-337 | an update moves the card's words as the exchange does, empties the FIFO under CTRL's FIFO reset bit (then raising TXDR), and data-transfer-over is raised exactly when it was or a data command's count is spent |
| SdhcData.LessWordsKeepsRemainder | hw/nationalchip/dwc_sdhc.c:102 | subtracting 4 any number of times keeps the count's remainder modulo 4 (also lines 117) |
| SdhcData.MisalignedCountNeverEnds | hw/nationalchip/dwc_sdhc.c:102 | a byte count that is not a multiple of four never reaches zero in the FIFO exchange, so that transfer never signals data-transfer-over (also lines 117, 121) |
| SdhcData.Burst | hw/nationalchip/dwc_sdhc.c:139-141 | a burst is positive and is the least of the buffer left, the count left and 16 (also lines 172-174) |
| SdhcData.Bytes | hw/nationalchip/dwc_sdhc.c:144 | a run of n bytes is n bytes long |
| SdhcData.ReadIsBytes | hw/nationalchip/dwc_sdhc.c:144 | a read of a mapped run succeeds with its bytes |
| SdhcData.BytesJoin | hw/nationalchip/dwc_sdhc.c:137-160 | two adjacent runs read as one |
| SdhcData.MappedJoin | hw/nationalchip/dwc_sdhc.c:137-160 | two adjacent runs are mapped exactly when both are |
| SdhcData.ToCard | hw/nationalchip/dwc_sdhc.c:134-161 | the memory-to-card loop sends at most the buffer, takes from the count exactly what it sends, fails only short of the buffer with count left, and otherwise ends with the buffer or the count spent |
| SdhcData.ToCardMapped | hw/nationalchip/dwc_sdhc.c:144 | every byte sent comes from a mapped address |
| SdhcData.ToCardOnce | hw/nationalchip/dwc_sdhc.c:137-160 | a mapped first burst is sent and the loop goes on after it |
| SdhcData.ToCardHalts | hw/nationalchip/dwc_sdhc.c:137 | with no buffer, no count or an unmapped first burst nothing is sent (also lines 144-147) |
| SdhcData.ToCardStops | hw/nationalchip/dwc_sdhc.c:144-147 | an unmapped first burst stops the loop as failed with nothing sent |
| SdhcData.ToCardAdvance | hw/nationalchip/dwc_sdhc.c:137-160 | one round of the loop, `done` bytes into the buffer |
| SdhcData.ToCardEnd | hw/nationalchip/dwc_sdhc.c:137 | with no buffer or no count left the loop ends, not failed, having sent nothing |
| SdhcData.Send | hw/nationalchip/dwc_sdhc.c:134-161 | the memory-to-card loop computes `ToCard` |
| SdhcData.ToCardSends | hw/nationalchip/dwc_sdhc.c:137-160 | the card receives exactly the bytes of memory from the buffer's start, after what it had |
| SdhcData.ToCardFailure | hw/nationalchip/dwc_sdhc.c:144-147 | a failure means the buffer, cut to the count, is not all mapped |
| SdhcData.ToCardFails | hw/nationalchip/dwc_sdhc.c:144-147 | the loop fails exactly when the buffer, cut to the count, is not all mapped |
| SdhcData.Landing | hw/nationalchip/dwc_sdhc.c:169-192 | the card-to-memory loop stores at most the buffer and the count; it fails only short of the buffer, the count and the card's data, and otherwise ends with one of them spent |
| SdhcData.Least | hw/nationalchip/dwc_sdhc.c:140 | the smaller of the buffer room and the count left (also lines 173) |
| SdhcData.LandingMapped | hw/nationalchip/dwc_sdhc.c:186 | every byte the loop stores is mapped |
| SdhcData.LandingFailure | hw/nationalchip/dwc_sdhc.c:186-189 | a write failure is the burst right after the stored bytes not being all mapped |
| SdhcData.LandingSucceeds | hw/nationalchip/dwc_sdhc.c:186-189 | with the buffer, cut to the count, all mapped no write fails |
| SdhcData.ToMemory | hw/nationalchip/dwc_sdhc.c:163-193 | card to memory stores at most the buffer, the count drops by exactly what was stored, and a failure leaves buffer and count unspent |
| SdhcData.ToMemoryKeys | hw/nationalchip/dwc_sdhc.c:186 | card to memory maps and unmaps nothing |
| SdhcData.LandingKeys | hw/nationalchip/dwc_sdhc.c:186 | whether each burst lands depends only on which addresses are mapped |
| SdhcData.LandingOnce | hw/nationalchip/dwc_sdhc.c:169-192 | a mapped first burst lands and the loop goes on after it |
| SdhcData.LandingIdle | hw/nationalchip/dwc_sdhc.c:169 | with no buffer, no count or no card data nothing moves |
| SdhcData.LandingStops | hw/nationalchip/dwc_sdhc.c:186-189 | an unmapped first burst stops the loop as failed |
| SdhcData.ToMemoryStep | hw/nationalchip/dwc_sdhc.c:169-192 | card to memory is one stored burst and then the rest from the next address |
| SdhcData.LandingAfterStore | hw/nationalchip/dwc_sdhc.c:186 | storing a burst does not change where the rest of the loop lands |
| SdhcData.ToMemoryUnfold | hw/nationalchip/dwc_sdhc.c:169-192 | the first `moved` card bytes land at the buffer, the card gives them up, plus the failing burst's bytes when a write failed |
| SdhcData.Resumed | hw/nationalchip/dwc_sdhc.c:190 | a loop result with `done` more bytes counted as stored |
| SdhcData.BurstsEnd | hw/nationalchip/dwc_sdhc.c:169 | the loop's last round moves nothing |
| SdhcData.BurstsFail | hw/nationalchip/dwc_sdhc.c:186-189 | an unmapped burst stops the loop after its card bytes were taken |
| SdhcData.BurstsGoOn | hw/nationalchip/dwc_sdhc.c:182-191 | a mapped burst goes one burst further |
| SdhcData.BurstsStore | hw/nationalchip/dwc_sdhc.c:182-191 | a mapped burst is stored and the loop goes on |
| SdhcData.BurstsRound | hw/nationalchip/dwc_sdhc.c:169-192 | one round of the burst loop as the loop body takes it |
| SdhcData.BurstsLast | hw/nationalchip/dwc_sdhc.c:169 | at the loop's exit nothing more moves |
| SdhcData.BurstsAreToMemory | hw/nationalchip/dwc_sdhc.c:169-192 | from any point, the burst loop does what the closed form does on the rest of the buffer, count and card stream |
| SdhcData.BurstsFromStart | hw/nationalchip/dwc_sdhc.c:163-193 | the burst loop from its start computes the closed form |
| SdhcData.Receive | hw/nationalchip/dwc_sdhc.c:163-193 | the card-to-memory loop computes `ToMemory` |
| SdhcData.StoreJoin | hw/nationalchip/dwc_sdhc.c:186 | storing two adjacent runs is storing their concatenation |
| SdhcData.MappedKeys | hw/nationalchip/dwc_sdhc.c:186 | whether a run is mapped depends only on the mapped addresses |
| SdhcData.Move | hw/nationalchip/dwc_sdhc.c:130-195 | one buffer sets the state machine to DMA_WR or DMA_RD, never raises the count, maps nothing new; towards the card memory and card data are untouched and the card gets exactly the bytes the count lost; towards memory the card is sent nothing |
| SdhcData.Buffers | hw/nationalchip/dwc_sdhc.c:242-264 | the buffers of a descriptor account for their bytes as one buffer does |
| SdhcData.Step | hw/nationalchip/dwc_sdhc.c:206-274 | a loop pass never reports an exhausted budget; when it goes on or finishes, the state machine shows the data phase of the direction |
| SdhcData.Checked | hw/nationalchip/dwc_sdhc.c:216-240 | the checks after a descriptor read, as a pass |
| SdhcData.Served | hw/nationalchip/dwc_sdhc.c:241-273 | serving a descriptor, as a pass |
| SdhcData.StepUnread | hw/nationalchip/dwc_sdhc.c:208-213 | an unreadable descriptor stops the walk in DESC_RD, changing nothing else |
| SdhcData.StepRead | hw/nationalchip/dwc_sdhc.c:209 | a readable descriptor is checked (also lines 216) |
| SdhcData.CheckedFromAnyFsm | hw/nationalchip/dwc_sdhc.c:216 | checking a descriptor does not depend on the state machine value it starts from |
| SdhcData.ServedFromAnyFsm | hw/nationalchip/dwc_sdhc.c:136 | serving does not depend on the state machine value it starts from (also lines 165) |
| SdhcData.WalkDry | hw/nationalchip/dwc_sdhc.c:206 | a walk with no budget left stops where it is |
| SdhcData.WalkOnce | hw/nationalchip/dwc_sdhc.c:206-274 | a walk with budget is its first pass, then the rest when the pass goes on |
| SdhcData.Walk | hw/nationalchip/dwc_sdhc.c:206-274 | a walk never ends mid-list; one that completes leaves the state machine in the data phase of its direction |
| SdhcData.StepAccounted | hw/nationalchip/dwc_sdhc.c:206-274 | one pass never raises the count and maps nothing; towards the card exactly the bytes the count lost are sent and memory is untouched; towards memory nothing is sent |
| SdhcData.WalkAccounted | hw/nationalchip/dwc_sdhc.c:206-274 | a whole walk accounts for its bytes as each pass does |
| DwcSdhc.Controller.Queue | hw/nationalchip/dwc_sdhc.c:98 | the FIFO holds `count` words, oldest first (also lines 357, 396) |
| DwcSdhc.Controller.CardPort | hw/nationalchip/dwc_sdhc.c:78-127 | the FIFO, count and card as the exchange sees them are in range |
| DwcSdhc.Controller.UpdateIrq | hw/nationalchip/dwc_sdhc.c:37-40 | the line is set to `IrqLevel` of RINTSTS, INTMASK and CTRL |
| DwcSdhc.Controller.LevelUpdate | hw/nationalchip/dwc_sdhc.c:43-75 | under CTRL's FIFO reset the FIFO empties with the start at 0 and TXDR raised; otherwise the flags follow the count and the data requests the watermarks; the line follows |
| DwcSdhc.Controller.RefreshLevel | hw/nationalchip/dwc_sdhc.c:63-74 | the flags become `LevelOf` the count, RINTSTS gains the data requests, the line follows |
| DwcSdhc.Controller.PushEntry | hw/nationalchip/dwc_sdhc.c:98 | a word joins the back of the FIFO (also lines 396-397) |
| DwcSdhc.Controller.PopEntry | hw/nationalchip/dwc_sdhc.c:106-107 | the oldest word leaves the front of the FIFO and is returned (also lines 357-359) |
| DwcSdhc.Controller.FillFifo | hw/nationalchip/dwc_sdhc.c:95-103 | the card-read loop computes `Fill` |
| DwcSdhc.Controller.DrainFifo | hw/nationalchip/dwc_sdhc.c:105-118 | the card-write loop computes `Drain` |
| DwcSdhc.Controller.Transfer | hw/nationalchip/dwc_sdhc.c:78-127 | the transfer computes `Exchanged` on the FIFO, the count, the card and RINTSTS |
| DwcSdhc.Controller.SignalOver | hw/nationalchip/dwc_sdhc.c:121-124 | data-transfer-over is raised, and the line updated, once the count is spent |
| DwcSdhc.Controller.MoveWords | hw/nationalchip/dwc_sdhc.c:87-119 | the word moves of a data command compute `Exchange` |
| DwcSdhc.Controller.Update | hw/nationalchip/dwc_sdhc.c:333-337 | an update computes `AfterUpdate`; the flags follow the count (or show an empty FIFO after a FIFO reset) and the line follows |
| DwcSdhc.Controller.ReadFifo | hw/nationalchip/dwc_sdhc.c:349-363 | `FifoRead`: an empty FIFO raises the underrun bit and reads 0, and every other part of the controller (the line, the flags, the FIFO, the card) is as it was; otherwise the oldest word is returned, the controller updates with the rest, the line follows and the flags are `LevelOf` the new count |
| DwcSdhc.Controller.Dequeue | hw/nationalchip/dwc_sdhc.c:357-362 | the oldest word is returned and the controller updates with the rest; the line follows and the flags are `LevelOf` the new count |
| DwcSdhc.Controller.WriteFifo | hw/nationalchip/dwc_sdhc.c:388-402 | `FifoWritten`: a full FIFO raises the error bit, the line follows and every other part is as it was; otherwise the word is appended, the controller updates, the line follows and the flags are `LevelOf` the new count |
| DwcSdhc.Controller.Enqueue | hw/nationalchip/dwc_sdhc.c:396-401 | the word joins the back of the FIFO and the controller updates; the line follows and the flags are `LevelOf` the new count |
| DwcSdhc.Controller.Command | hw/nationalchip/dwc_sdhc.c:294-331 | START_CMD clears; a clock-update-only command is not sent; any other is issued with its index and CMDARG, the response is packed or response-timeout raised, a CMD12 follows for auto-stop without internal DMA, command-done is raised and the line updated |
| DwcSdhc.Controller.SendCommand | hw/nationalchip/dwc_sdhc.c:304-330 | the card receives the command and perhaps CMD12 with CMDARG; RESP0-RESP3 take the packed response when one was expected and matched; RINTSTS is `Answered`; the line follows |
| DwcSdhc.Controller.SetCommandDone | hw/nationalchip/dwc_sdhc.c:329-330 | command-done is raised and the line follows |
| DwcSdhc.Controller.Respond | hw/nationalchip/dwc_sdhc.c:308-323 | an expected response of the right length is packed into RESP0-RESP3; another length raises response-timeout |
| DwcSdhc.Controller.SendBuffer | hw/nationalchip/dwc_sdhc.c:134-161 | the state machine shows DMA_WR and the card and count end as `ToCard` says |
| DwcSdhc.Controller.ReceiveBuffer | hw/nationalchip/dwc_sdhc.c:163-193 | the state machine shows DMA_RD and memory, card and count end as `ToMemory` says |
| DwcSdhc.Controller.IdmaTransfer | hw/nationalchip/dwc_sdhc.c:130-195 | one buffer computes `Move`; the result is -2 for a failed memory read, -1 for a failed memory write and otherwise the bytes moved, which is what BYTCNT went down by |
| DwcSdhc.Controller.MoveBuffers | hw/nationalchip/dwc_sdhc.c:242-264 | a descriptor's buffers compute `Buffers` |
| DwcSdhc.Controller.DescriptorStep | hw/nationalchip/dwc_sdhc.c:206-274 | one pass computes `Step` with the list base from DBADDR and the skip from BMOD |
| DwcSdhc.Controller.Check | hw/nationalchip/dwc_sdhc.c:216-240 | the checks compute `Checked` |
| DwcSdhc.Controller.Serve | hw/nationalchip/dwc_sdhc.c:241-273 | serving computes `Served` |
| DwcSdhc.Controller.RunDescriptors | hw/nationalchip/dwc_sdhc.c:206-274 | the loop computes `Walk` for the given budget |
| DwcSdhc.Controller.IdmaProcess | hw/nationalchip/dwc_sdhc.c:197-291 | without a data command nothing changes; otherwise the walk starts at DBADDR and, when it completes the list, CMD12 is issued for auto-stop and IDSTS gains TI or RI unless DIC is set |
| DwcSdhc.Controller.Complete | hw/nationalchip/dwc_sdhc.c:276-290 | CMD12 is issued for auto-stop and, unless DIC is set, TI (to the card) or RI (from the card) is raised |
| DwcSdhc.Controller.DmaTimer | hw/nationalchip/dwc_sdhc.c:429-430 | the timer disarms; with no walk pending, or a pending walk without a data command, the DMA state, the requests and IDSTS are unchanged; a pending walk of a data command runs from DBADDR as `Walk` says, and when it completes the list CMD12 follows for auto-stop and TI or RI is raised unless DIC is set (also lines 448, 524) |
| DwcSdhc.Controller.Read | hw/nationalchip/dwc_sdhc.c:339-376 | below the FIFO port a read returns `ValueAt` (MINTSTS computed, the block by word, zero beyond) and changes nothing; the FIFO port does `FifoRead`, line and flags included |
| DwcSdhc.Controller.WriteControl | hw/nationalchip/dwc_sdhc.c:411-416 | the controller updates under the written CTRL value, then CTRL keeps it with the two reset bits cleared; the line follows, and the flags show an empty FIFO after a FIFO reset and are otherwise `LevelOf` the count |
| DwcSdhc.Controller.ClearResets | hw/nationalchip/dwc_sdhc.c:414-415 | the two reset bits clear themselves |
| DwcSdhc.Controller.WritePower | hw/nationalchip/dwc_sdhc.c:417-420 | PWREN is stored and bit 0 powers the card |
| DwcSdhc.Controller.WriteMask | hw/nationalchip/dwc_sdhc.c:421-424 | INTMASK is stored and the line follows the new mask |
| DwcSdhc.Controller.WriteCommand | hw/nationalchip/dwc_sdhc.c:425-435 | CMD is stored with START_CMD cleared, RESP0-RESP3 are cleared and the command issued; with internal DMA the timer is armed, the line follows a sent command, and nothing outside CMD, the requests, RESP, RINTSTS, the line and the timer changes; otherwise the controller updates, the line follows and the flags are `LevelOf` the count |
| DwcSdhc.Controller.Issue | hw/nationalchip/dwc_sdhc.c:426-428 | CMD is stored, RESP0-RESP3 cleared and the command issued as `Command` says |
| DwcSdhc.Controller.Proceed | hw/nationalchip/dwc_sdhc.c:429-434 | with internal DMA the timer is armed and nothing else changes; otherwise the controller updates, the line follows and the flags are `LevelOf` the count |
| DwcSdhc.Controller.ClearRawStatus | hw/nationalchip/dwc_sdhc.c:436-441 | the written RINTSTS bits are cleared, then the flags and data requests are refreshed; the FIFO itself is unchanged; no other field changes (`StatusWritten` at its offset) |
| DwcSdhc.Controller.ArmDma | hw/nationalchip/dwc_sdhc.c:447-449 | a PLDMND write arms the DMA timer whatever its value and changes nothing else, the whole effect `StatusWritten` gives that offset |
| DwcSdhc.Controller.ClearDmaStatus | hw/nationalchip/dwc_sdhc.c:450-461 | IDSTS becomes `ClearIdsts` of the written value and the line follows; no other field changes (`StatusWritten` at its offset) |
| DwcSdhc.Controller.WriteDmaEnable | hw/nationalchip/dwc_sdhc.c:463-466 | IDINTEN is stored and the line follows; no other field changes (`StatusWritten` at its offset) |
| DwcSdhc.Controller.StoreWord | hw/nationalchip/dwc_sdhc.c:443-446 | a plain write reads back as written; a BYTCNT write sets the count (also lines 485-488); only BYTCNT or the stored word changes (`StatusWritten`) |
| DwcSdhc.Controller.CountAt | hw/nationalchip/dwc_sdhc.c:369-372 | BYTCNT reads as the count |
| DwcSdhc.Controller.PlainAt | hw/nationalchip/dwc_sdhc.c:369-372 | a word with no state of its own reads as stored |
| DwcSdhc.Controller.Reset | hw/nationalchip/dwc_sdhc.c:536-554 | the block takes its reset values and the count returns to zero; the FIFO's read position, the line, an armed timer and the card are left alone |
| DwcSdhc.Controller.ResetView | hw/nationalchip/dwc_sdhc.c:536-552 | after reset every word of the block reads as its reset value |
| DwcSdhc.Controller.constructor | hw/nationalchip/dwc_sdhc.c:498-554 | a new controller reads its reset values everywhere, with an empty FIFO, the line low, no timer armed and no request issued |
| DwcSdhc.Controller.Write | hw/nationalchip/dwc_sdhc.c:378-490 | `Written`: the FIFO port does `FifoWritten`; past the block and at the read-only offsets no part of the controller changes; CTRL, PWREN, INTMASK, CMD, RINTSTS, PLDMND, IDSTS and IDINTEN take their whole effect (`ControlWritten`, `PowerWritten`, `MaskWritten`, `CommandWritten`, `RawStatusWritten`, `DmaStatusWritten`, `DmaEnableWritten`) and `Only` the parts they name change; every other word is stored (`WordStored`) and reads back as written |
| DwcSdhc.Controller.WriteRegister | hw/nationalchip/dwc_sdhc.c:404-489 | the register half of a write: `Written` below the FIFO port, with nothing changed past the block and at the read-only offsets |
| DwcSdhc.Controller.WriteSetup | hw/nationalchip/dwc_sdhc.c:411-435 | `SetupWritten`: the CTRL, PWREN, INTMASK and CMD writes with their whole effect and the parts each may change |
| DwcSdhc.Controller.WriteStatus | hw/nationalchip/dwc_sdhc.c:436-466 | `StatusWritten`: the RINTSTS, PLDMND, IDSTS, IDINTEN and plain writes with their whole effect and the parts each may change (PLDMND only arms the timer) (also lines 485-488) |

## Left out

- DmacEngine.Payload: the device writes from a 32-byte stack buffer that holds only the bytes just read. When the destination width exceeds the source width, the extra bytes are uninitialised (hw/gx/dw_ahb_dmac.c:251-272). The model writes zeros there.
- DmacEngine.ReloadLoop: the block-end `while` loop (hw/gx/dw_ahb_dmac.c:119-159) has no bound in the device. The model follows it for a given `Fuel` and reports `OutOfFuel` when that runs out. `EmptySelfLinkedItemSpins` shows an input on which the device never leaves the loop.
- DmacEngine.ChannelRun: the transfer loop (hw/gx/dw_ahb_dmac.c:249-291) is followed for a given `Fuel`. After a failed access the device re-tests the loop condition, which does not look at the enable bit, so it can spin for ever (`UnreadableSourceStep`). The model stops when the fuel runs out and reports it; `DmacEngine.Process` then stops too and returns the report, so the later channels are not run (the device would never reach them).
- DmacController.Controller.Process: runs the engine with the same fuel bound as `DmacEngine.Process`, and returns at the channel that used it up.
- DmacEngine.Handshake: the timer that the device re-arms on a rising handshake is not modelled. `DmacController.Controller.SetHandshake` returns a "run" flag instead. The same holds for the CH_EN write.
- DmacEngine.LastBlock: the `TODO: write back to memory` of the done bit (hw/gx/dw_ahb_dmac.c:121) is not done by the device, and not by the model.
- DmacEngine.ResetState: reset does not drive the interrupt line (hw/gx/dw_ahb_dmac.c:718-738), so the model keeps the old level.
- GuestMemory.Load: `cpu_physical_memory_read` on an address nothing backs is modelled as reading zero bytes. The memory subsystem's own behaviour for unassigned memory is not part of this model.
- GuestMemory.Put: `cpu_physical_memory_write` to unbacked bytes is modelled as dropping them.
- DwcSdhc.Controller.RunDescriptors: the descriptor walk of `_dwc_sdhc_idma_process` (hw/nationalchip/dwc_sdhc.c:206-274) has no bound in the device. The model takes a `fuel` count and reports when it runs out.
- DwcSdhc.Controller.IdmaProcess: same fuel bound as `RunDescriptors`.
- DwcSdhc.Controller.DmaTimer: same fuel bound as `RunDescriptors`.
- SdhcData.Walk: same fuel bound as `RunDescriptors`.
- SdhcData.ToCard: each burst address `dma_addr + count` is a `uint32_t` that wraps at 2^32 (hw/nationalchip/dwc_sdhc.c:138). The model adds as unbounded integers.
- SdhcData.ToMemory: same 2^32 wrap, not modelled (hw/nationalchip/dwc_sdhc.c:171).
- DwcSdhc.Controller.Complete: the automatic CMD12 of a DMA transfer is sent with argument 0. The source sends a request whose `arg` is never set (hw/nationalchip/dwc_sdhc.c:276-281), so its value is undefined. The non-DMA stop command keeps CMDARG, as the source does (hw/nationalchip/dwc_sdhc.c:325-328).
- DwcSdhc.Controller.IdmaProcess: same argument 0 for the automatic CMD12 as `Complete`.
- DwcSdhc.Controller.Write: requires a word-aligned offset. The source logs a size other than 4 and goes on (hw/nationalchip/dwc_sdhc.c:382-386). For an unaligned offset below 0x9C it matches no case and stores the value at `regs[offset / 4]` (hw/nationalchip/dwc_sdhc.c:485-488). The model does not cover that path.
- DwcSdhc.Controller.Read: the extension registers at 0x100-0x110 (`ext_regs`) are part of the device state, but no read or write path reaches them. They are not modelled, and offsets 0x9C-0x1FF read as zero and ignore writes (hw/nationalchip/dwc_sdhc.c:369-375, 404-407).
- DwcSsi.Ssi.WriteData: requires room in the TX FIFO. `fifo32_push` on a full FIFO aborts the emulator, so that path is not modelled.
- DwcSsi.Ssi.ReadData: requires the RX FIFO to hold a word after the receive step. When it does not, the source sets RISR.RXUIR and then pops an empty FIFO, which aborts in fifo32 (hw/gx/dwc_ssi.c:350-354).
- DwcSsi.Ssi.EnhanceXfer: requires the TX FIFO to hold the words the prologue pops as written (`ConsumedAsWritten`). The source waits only for the words it counts (hw/gx/dwc_ssi.c:104-107). With fewer words than it pops, it pops an empty FIFO and aborts.
- DwcSsi.Ssi.Tx: in TX_AND_RX mode the transmit loop pushes into the RX FIFO. The model requires the two FIFOs together to fit, since an overflow aborts in fifo32.
- DwcSsi.Ssi.SendFrame: the mixed and dual framings (`trans_type` 1 and 2) are modelled as the source writes them: raw address words, and one combined instruction/address word. The source marks these TODO.
- DwcSsi.Ssi.Read: reads of the data window go through `ReadData`. `Read` covers every other offset.
- DwcSsi.Ssi.Write: writes to the data window go through `WriteData`. `Write` covers every other offset.
- DwcSsi.Ssi: the chip-select GPIO is the boolean `csHigh`, the level last driven. The transmit and receive counts are unbounded naturals where the source has 32-bit counters.
- DwcEmac.Emac.Send: the transmit walk is the `while (1)` of `dwc_emac_send` (hw/gx/dwc_emac.c:413). The model follows it for at most `budget` descriptors.
- DwcEmac.Emac.Write: passes the same `budget` to `Send` on a transmit poll demand.
- DwcEmac.Emac.Receive: requires `size + 4` to fit in 64 bits. Frames of fewer than six bytes are not inspected: the source reads `buf[0..5]` before its size check (hw/gx/dwc_emac.c:563-566), and the model checks the size first. Receive buffer 2 and the receive buffer size field are ignored, as in the source.
- DwcEmac.Emac.Transmit: the `tx_bytes` statistic is never counted by the source, and the model keeps no such counter.
- DwcEmac.Emac.SetLinkStatus: the network backend's link state is the parameter `linkDown`.
- EmacPhy: the MII register numbers and bit values come from QEMU's MII header. That header is not part of this model; its constants are written out.
- DwUart.DwApbUart.Receive: requires room in the receive queue when a byte arrives. The character backend asks `can_receive` before it delivers (hw/gx/dw_apb_uart.c:258-268).
- DwUart.DwApbUart.Read: requires `offset < 0x1000`, the size of the UART's window (hw/gx/dw_apb_uart.c:359). The source masks the offset with 0xfff.
- DwUart.DwApbUart.Write: requires `offset < 0x1000`, the size of the UART's window.
- GxAhci.GxAhciState.Read: requires a word-aligned offset inside the 32-word bank. The memory region allows only 4-byte accesses (hw/gx/gx_ahci.c:82-88), and its size is that of the register array (hw/gx/gx_ahci.c:95-96).
- GxAhci.GxAhciState.Write: same word-aligned, in-bank requirement as `Read`.
- Watchdog.Wdt: the virtual clock is the parameter `now`, and the QEMU timer is the pair `armed`/`deadline`. The timer callback is the method `Expire`.
- Not modelled: QEMU object plumbing (realize, property links, VMState descriptions, MAC address and NIC setup), logging and debug dumps, and the devices of the repository outside the ones above.

## Findings

| source | as written | input that shows it | evidently intended | confidence | as-written member | corrected member |
|---|---|---|---|---|---|---|
| hw/nationalchip/dwc_sdhc.c:272 | an unchained descriptor that is neither last nor at the ring's end is followed by `dscaddr += bmod.dsl`: DSL bytes on from the descriptor's start | descriptor at 0x1000, BMOD.DSL = 2: the next descriptor is fetched at 0x1002, inside the current one; with DSL = 0 (the reset value) the same descriptor is fetched again | the next descriptor starts DSL words after the end of the current 16-byte descriptor: `dscaddr + 16 + 4 * DSL` | not executed | SdhcLayout.NextAsWritten, SdhcLayout.AsWrittenOverlaps | SdhcLayout.NextDescriptor, SdhcLayout.NextLeavesDescriptor |
| hw/gx/dwc_ssi.c:130-139 | in standard framing with an address length of 0, the single-word address path still pops a word from the TX FIFO and sends none of its bytes | SPI_CTRLR0 = 0x100 (instruction only), SPI_FRF ≠ 0, TX_ONLY: the instruction word and then data word d1 are written. The phase waits for 1 word, pops 2 and sends only the instruction, so d1 is lost. With only the instruction queued, the second pop finds the FIFO empty | the phase pops only the words it waits for, and d1 stays in the FIFO to be sent | not executed | SsiLink.ConsumedAsWritten, SsiLink.AddressWordDropped, SsiLink.AsWrittenDropsDataWord | SsiLink.Consumed, SsiLink.FramedIntended, SsiLink.IntendedKeepsData |
| hw/gx/dwc_emac.c:455-457 | `qemu_send_packet(nc, frame, len)` sends `len` bytes, where `len` is the size of the last segment only, not of the assembled frame | a frame of a 100-byte first segment and a 50-byte last segment: 50 bytes are sent, the first 50 of the frame | the whole assembled frame, 150 bytes | not executed | EmacRing.SentAsWritten, EmacRing.SentAsWrittenTruncates, EmacRing.StepTruncates | EmacRing.FrameSentWhole, EmacRing.WalkLosesNothing |

The device methods use the as-written behaviour: `DwcSdhc.Controller.RunDescriptors` walks with `NextAsWritten`, `DwcSsi.Ssi.SendFrame` pops `ConsumedAsWritten` words, and `DwcEmac.Emac.Transmit` sends `SentAsWritten`. The corrected definitions sit beside them with their properties proved. `EmacRing.SingleSegmentAgrees` shows that the two readings of the send agree on single-segment frames.
