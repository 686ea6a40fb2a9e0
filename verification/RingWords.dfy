/** Moves on 32-bit words: what `Move2NextMetaBlk` does for any count, and where it differs from a move forward. */
module RingWords {
  import opened RingTypes
  import opened Modular
  import S = RingSteps

  /** `Move2NextMetaBlk` on 32-bit words: `_count` is a signed word added to an unsigned cursor. */
  function Move2NextWord(cfg: Config, cur: nat, lim: nat, count: int): Option<nat>
    requires cfg.blkCount >= 1
  {
    var lim' := (if lim < cur then lim + cfg.blkCount else lim) % WORD;
    var sum := (cur + count) % WORD;
    if sum <= lim' then Some(sum % cfg.blkCount) else None
  }

  /** Two positions of a ring that `InitRing` sized, and a count of 32 bits. */
  predicate InWords(cfg: Config, cur: nat, lim: nat, count: int) {
    && 1 <= cfg.blkCount <= 0x4000_0000 && cur < cfg.blkCount && lim < cfg.blkCount
    && -0x8000_0000 <= count < 0x8000_0000
  }

  /** For the counts a module may pass, the words never wrap. */
  lemma WordMoveAgrees(cfg: Config, cur: nat, lim: nat, count: int)
    requires InWords(cfg, cur, lim, count) && count >= 0
    ensures Move2NextWord(cfg, cur, lim, count) == S.Move2Next(cfg, cur, lim, count)
  {
    SmallWord(cur + count);
    SmallWord(if lim < cur then lim + cfg.blkCount else lim);
  }

  lemma SmallWord(x: nat)
    requires x < WORD
    ensures x % WORD == x
  {
  }

  lemma BelowZero(x: int)
    requires -WORD <= x < 0
    ensures x % WORD == x + WORD
  {
  }

  /** A negative count is accepted exactly when it does not reach below position 0, and then moves the
      cursor back: moves must be non-negative. */
  lemma NegativeMoveIff(cfg: Config, cur: nat, lim: nat, count: int)
    requires InWords(cfg, cur, lim, count) && count < 0
    ensures Move2NextWord(cfg, cur, lim, count) == if cur + count >= 0 then Some(cur + count) else None
  {
    SmallWord(if lim < cur then lim + cfg.blkCount else lim);
    if cur + count >= 0 {
      SmallWord(cur + count);
      SmallMod(cur + count, cfg.blkCount);
    } else {
      BelowZero(cur + count);
    }
  }
}
