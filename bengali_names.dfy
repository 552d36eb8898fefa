/**
 * The `BENGALI_NAMES` table of surah_desc_generator.py. The source keys it by
 * the surah number as a string, "1" to "114" in order; here it is the list of
 * its values in that order, so surah `n` has the name at index `n - 1`.
 */
module BengaliNames {
  const BENGALI_NAMES: seq<string> := [
    "আল-ফাতিহা",
    "আল-বাকারা",
    "আল-ই-ইমরান",
    "আন-নিসা",
    "আল-মায়িদাহ",
    "আল-আন'আম",
    "আল-আ'রাফ",
    "আল-আনফাল",
    "আত-তাওবাহ",
    "ইউনুস",
    "হুদ",
    "ইউসুফ",
    "আর-রাদ",
    "ইব্রাহিম",
    "আল-হিজর",
    "আন-নাহল",
    "আল-ইসরা",
    "আল-কাহফ",
    "মরিয়ম",
    "তাহা",
    "আল-আম্বিয়া",
    "আল-হাজ্জ",
    "আল-মুমিনুন",
    "আন-নূর",
    "আল-ফুরকান",
    "আশ-শু'আরা",
    "আন-নামল",
    "আল-কাসাস",
    "আল-আনকাবুত",
    "আর-রুম",
    "লুকমান",
    "আস-সাজদা",
    "আল-আহযাব",
    "সাবা",
    "ফাতির",
    "ইয়াসিন",
    "আস-সাফফাত",
    "সাদ",
    "আয-যুমার",
    "গাফির",
    "ফুসসিলাত",
    "আশ-শুরা",
    "আয-যুখরুফ",
    "আদ-দুখান",
    "আল-জাসিয়াহ",
    "আল-আহকাফ",
    "মুহাম্মদ",
    "আল-ফাতহ",
    "আল-হুজুরাত",
    "কাফ",
    "আয-যারিয়াত",
    "আত-তুর",
    "আন-নাজম",
    "আল-কামার",
    "আর-রাহমান",
    "আল-ওয়াকিয়াহ",
    "আল-হাদিদ",
    "আল-মুজাদিলাহ",
    "আল-হাশর",
    "আল-মুমতাহানাহ",
    "আস-সাফ",
    "আল-জুমু'আহ",
    "আল-মুনাফিকুন",
    "আত-তাগাবুন",
    "আত-তালাক",
    "আত-তাহরিম",
    "আল-মুলক",
    "আল-কালাম",
    "আল-হাক্কাহ",
    "আল-মা'আরিজ",
    "নূহ",
    "আল-জিন",
    "আল-মুজাম্মিল",
    "আল-মুদদাসসির",
    "আল-কিয়ামাহ",
    "আল-ইনসান",
    "আল-মুরসালাত",
    "আন-নাবা",
    "আন-নাজিয়াত",
    "আবাসা",
    "আত-তাকভীর",
    "আল-ইনফিতার",
    "আল-মুতাফফিফিন",
    "আল-ইনশিকাক",
    "আল-বুরুজ",
    "আত-তারিক",
    "আল-আ'লা",
    "আল-গাশিয়াহ",
    "আল-ফাজর",
    "আল-বালাদ",
    "আশ-শামস",
    "আল-লাইল",
    "আদ-দুহা",
    "আল-শারহ",
    "আত-তিন",
    "আল-আলাক",
    "আল-কদর",
    "আল-বাইয়িনাহ",
    "আয-যালযালাহ",
    "আল-আদিয়াত",
    "আল-কারিয়াহ",
    "আত-তাকাসুর",
    "আল-আসর",
    "আল-হুমাজাহ",
    "আল-ফীল",
    "কুরাইশ",
    "আল-মাউন",
    "আল-কাওসার",
    "আল-কাফিরুন",
    "আন-নাসর",
    "আল-মাসাদ",
    "আল-ইখলাস",
    "আল-ফালাক",
    "আন-নাস"
  ]

  /** There is a name for every surah. */
  lemma BengaliNamesCount()
    ensures |BENGALI_NAMES| == 114
  {
  }
}
