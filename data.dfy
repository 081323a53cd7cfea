/**
 * The constant game data: 13 buff types, 5 echo slots, one histogram of
 * observed raw values per buff type, and each buff type's largest value.
 * Percentage buffs store tenths of a percent (6.3% is 63); flat buffs
 * store their raw value.
 */
module Data {

  const NUM_BUFFS: nat := 13
  const NUM_ECHO_SLOTS: nat := 5

  /** `(raw value, observation count)` pairs. */
  type Histogram = seq<(nat, nat)>

  datatype BuffData = BuffData(name: string, histogram: Histogram)

  const HIST_CRIT_RATE: Histogram := [(63, 1036), (69, 964), (75, 1053), (81, 362), (87, 322), (93, 328), (99, 131), (105, 112)]
  const HIST_CRIT_DAMAGE: Histogram := [(126, 995), (138, 1005), (150, 1090), (162, 335), (174, 362), (186, 387), (198, 129), (210, 119)]
  const HIST_ATTACK: Histogram := [(64, 316), (71, 373), (79, 921), (86, 1125), (94, 781), (101, 707), (109, 254), (116, 139)]
  const HIST_DEFENSE: Histogram := [(81, 318), (90, 413), (100, 995), (109, 1277), (118, 872), (128, 718), (138, 295), (147, 152)]
  const HIST_HP: Histogram := [(64, 321), (71, 386), (79, 1005), (86, 1213), (94, 800), (101, 669), (109, 275), (116, 137)]
  const HIST_ATTACK_FLAT: Histogram := [(30, 326), (40, 2496), (50, 1838), (60, 120)]
  const HIST_DEFENSE_FLAT: Histogram := [(40, 700), (50, 2128), (60, 1846), (70, 141)]
  const HIST_HP_FLAT: Histogram := [(320, 298), (360, 419), (390, 971), (430, 1205), (470, 864), (510, 680), (540, 258), (580, 168)]
  const HIST_ER: Histogram := [(68, 302), (76, 375), (84, 975), (92, 1199), (100, 871), (108, 643), (116, 274), (124, 126)]
  const HIST_BASIC_ATTACK_DAMAGE: Histogram := [(64, 316), (71, 360), (79, 959), (86, 1199), (94, 859), (101, 723), (109, 263), (116, 160)]
  const HIST_HEAVY_ATTACK_DAMAGE: Histogram := [(64, 319), (71, 369), (79, 968), (86, 1187), (94, 809), (101, 697), (109, 283), (116, 150)]
  const HIST_SKILL_DAMAGE: Histogram := [(64, 328), (71, 357), (79, 978), (86, 1173), (94, 847), (101, 731), (109, 283), (116, 149)]
  const HIST_ULT_DAMAGE: Histogram := [(64, 292), (71, 358), (79, 973), (86, 1162), (94, 823), (101, 694), (109, 280), (116, 144)]

  const BUFF_MAX_VALUES: seq<real> :=
    [105.0, 210.0, 116.0, 147.0, 116.0, 60.0, 70.0, 580.0, 124.0, 116.0, 116.0, 116.0, 116.0]

  const BUFF_TYPES: seq<BuffData> := [
    BuffData("Crit. Rate", HIST_CRIT_RATE),
    BuffData("Crit. DMG", HIST_CRIT_DAMAGE),
    BuffData("ATK%", HIST_ATTACK),
    BuffData("DEF%", HIST_DEFENSE),
    BuffData("HP%", HIST_HP),
    BuffData("ATK", HIST_ATTACK_FLAT),
    BuffData("DEF", HIST_DEFENSE_FLAT),
    BuffData("HP", HIST_HP_FLAT),
    BuffData("Energy Regen", HIST_ER),
    BuffData("Basic Attack DMG Bonus", HIST_BASIC_ATTACK_DAMAGE),
    BuffData("Heavy Attack DMG Bonus", HIST_HEAVY_ATTACK_DAMAGE),
    BuffData("Resonance Skill DMG Bonus", HIST_SKILL_DAMAGE),
    BuffData("Resonance Liberation DMG Bonus", HIST_ULT_DAMAGE)
  ]

  /** The histograms in buff-type order. */
  const HISTOGRAMS: seq<Histogram> := [
    HIST_CRIT_RATE,
    HIST_CRIT_DAMAGE,
    HIST_ATTACK,
    HIST_DEFENSE,
    HIST_HP,
    HIST_ATTACK_FLAT,
    HIST_DEFENSE_FLAT,
    HIST_HP_FLAT,
    HIST_ER,
    HIST_BASIC_ATTACK_DAMAGE,
    HIST_HEAVY_ATTACK_DAMAGE,
    HIST_SKILL_DAMAGE,
    HIST_ULT_DAMAGE
  ]

  lemma BuffTypeHistograms()
    ensures |BUFF_TYPES| == |HISTOGRAMS|
    ensures forall i :: 0 <= i < |BUFF_TYPES| ==> BUFF_TYPES[i].histogram == HISTOGRAMS[i]
  {
  }

  /** The two groups whose histograms are pooled position by position when blending. */
  const BLEND_GROUP_CRIT: seq<nat> := [0, 1]
  const BLEND_GROUP_MAIN: seq<nat> := [2, 3, 4, 7, 8, 9, 10, 11, 12]

  /** Non-empty, raw values strictly increasing, every count positive. */
  predicate WellFormedHistogram(h: Histogram)
  {
    && |h| > 0
    && (forall j :: 0 <= j < |h| ==> h[j].1 > 0)
    && (forall j, k :: 0 <= j < k < |h| ==> h[j].0 < h[k].0)
  }

  /** The largest raw value of a well-formed histogram is its last one. */
  function MaxRawValue(h: Histogram): (r: nat)
    requires WellFormedHistogram(h)
    ensures forall j :: 0 <= j < |h| ==> h[j].0 <= r
    ensures exists j :: 0 <= j < |h| && h[j].0 == r
  {
    h[|h| - 1].0
  }

  /** Strictly increasing neighbours make the whole histogram strictly increasing. */
  lemma {:induction false} AdjacentIncreasing(h: Histogram)
    requires forall j :: 0 <= j < |h| - 1 ==> h[j].0 < h[j + 1].0
    ensures forall j, k :: 0 <= j < k < |h| ==> h[j].0 < h[k].0
  {
    if |h| > 1 {
      var t := h[..|h| - 1];
      assert forall j :: 0 <= j < |t| - 1 ==> t[j].0 < t[j + 1].0;
      AdjacentIncreasing(t);
      forall j, k | 0 <= j < k < |h|
        ensures h[j].0 < h[k].0
      {
        if k < |h| - 1 {
          assert t[j].0 < t[k].0;
        } else if j < |h| - 2 {
          assert t[j].0 < t[|h| - 2].0;
        }
      }
    }
  }

  lemma CheckHistogram(h: Histogram)
    requires |h| > 0
    requires forall j :: 0 <= j < |h| ==> h[j].1 > 0
    requires forall j :: 0 <= j < |h| - 1 ==> h[j].0 < h[j + 1].0
    ensures WellFormedHistogram(h)
  {
    AdjacentIncreasing(h);
  }

  lemma HistogramWellFormed(i: nat)
    requires i < |HISTOGRAMS|
    ensures WellFormedHistogram(HISTOGRAMS[i])
  {
    if i <= 4 {
      FirstHistogramsWellFormed(i);
    } else if i <= 8 {
      MiddleHistogramsWellFormed(i);
    } else {
      LastHistogramsWellFormed(i);
    }
  }

  lemma FirstHistogramsWellFormed(i: nat)
    requires 0 <= i <= 4
    ensures WellFormedHistogram(HISTOGRAMS[i])
  {
    if i == 0 {
      CheckHistogram(HIST_CRIT_RATE);
    } else if i == 1 {
      CheckHistogram(HIST_CRIT_DAMAGE);
    } else if i == 2 {
      CheckHistogram(HIST_ATTACK);
    } else if i == 3 {
      CheckHistogram(HIST_DEFENSE);
    } else {
      CheckHistogram(HIST_HP);
    }
  }

  lemma MiddleHistogramsWellFormed(i: nat)
    requires 5 <= i <= 8
    ensures WellFormedHistogram(HISTOGRAMS[i])
  {
    if i == 5 {
      CheckHistogram(HIST_ATTACK_FLAT);
    } else if i == 6 {
      CheckHistogram(HIST_DEFENSE_FLAT);
    } else if i == 7 {
      CheckHistogram(HIST_HP_FLAT);
    } else {
      CheckHistogram(HIST_ER);
    }
  }

  lemma LastHistogramsWellFormed(i: nat)
    requires 9 <= i <= 12
    ensures WellFormedHistogram(HISTOGRAMS[i])
  {
    if i == 9 {
      CheckHistogram(HIST_BASIC_ATTACK_DAMAGE);
    } else if i == 10 {
      CheckHistogram(HIST_HEAVY_ATTACK_DAMAGE);
    } else if i == 11 {
      CheckHistogram(HIST_SKILL_DAMAGE);
    } else {
      CheckHistogram(HIST_ULT_DAMAGE);
    }
  }

  /** There are 13 buff types, each with a well-formed histogram. */
  lemma BuffTypesWellFormed()
    ensures |BUFF_TYPES| == NUM_BUFFS && |BUFF_MAX_VALUES| == NUM_BUFFS
    ensures forall i :: 0 <= i < NUM_BUFFS ==> WellFormedHistogram(BUFF_TYPES[i].histogram)
  {
    forall i | 0 <= i < NUM_BUFFS
      ensures WellFormedHistogram(BUFF_TYPES[i].histogram)
    {
      BuffTypeHistograms();
      HistogramWellFormed(i);
    }
  }

  /** `BUFF_MAX_VALUES[i]` is the largest raw value in histogram `i`. */
  lemma BuffMaxIsLargestValue(i: nat)
    requires i < NUM_BUFFS
    ensures WellFormedHistogram(BUFF_TYPES[i].histogram)
    ensures BUFF_MAX_VALUES[i] == MaxRawValue(BUFF_TYPES[i].histogram) as real
  {
    BuffTypeHistograms();
    HistogramWellFormed(i);
  }

  /** Every blend-group member has an 8-entry histogram, so blending can pool positionally. */
  lemma BlendGroupsHaveEightEntries()
    ensures forall g :: 0 <= g < |BLEND_GROUP_CRIT| ==>
      BLEND_GROUP_CRIT[g] < NUM_BUFFS && |BUFF_TYPES[BLEND_GROUP_CRIT[g]].histogram| == 8
    ensures forall g :: 0 <= g < |BLEND_GROUP_MAIN| ==>
      BLEND_GROUP_MAIN[g] < NUM_BUFFS && |BUFF_TYPES[BLEND_GROUP_MAIN[g]].histogram| == 8
  {
  }
}
