/**
 * Python 3's `str.isalnum()` beyond ASCII: the characters of Unicode's
 * letter and number categories (L*, N*) and the others that carry a
 * numeric value, here as of Unicode 15.0.0. With `_` and the ASCII letters
 * and digits these are what the regular-expression class `\w` matches in
 * a `str` pattern.
 */
module WordChars {

  /** The alphanumeric code points above U+007F: 744 ranges, searched as a
      balanced tree. */
  predicate IsAlnumCode(n: int) {
    if n < 0xAAB5 then
      if n < 0x10D0 then
        if n < 0xB05 then
          if n < 0x828 then
            if n < 0x531 then
              if n < 0x2EE then
                if n < 0xC0 then
                  n == 0xAA || 0xB2 <= n <= 0xB3 || n == 0xB5 || 0xB9 <= n <= 0xBA || 0xBC <= n <= 0xBE
                else
                  0xC0 <= n <= 0xD6 || 0xD8 <= n <= 0xF6 || 0xF8 <= n <= 0x2C1 || 0x2C6 <= n <= 0x2D1 || 0x2E0 <= n <= 0x2E4 || n == 0x2EC
              else
                if n < 0x388 then
                  n == 0x2EE || 0x370 <= n <= 0x374 || 0x376 <= n <= 0x377 || 0x37A <= n <= 0x37D || n == 0x37F || n == 0x386
                else
                  0x388 <= n <= 0x38A || n == 0x38C || 0x38E <= n <= 0x3A1 || 0x3A3 <= n <= 0x3F5 || 0x3F7 <= n <= 0x481 || 0x48A <= n <= 0x52F
            else
              if n < 0x6EE then
                if n < 0x620 then
                  0x531 <= n <= 0x556 || n == 0x559 || 0x560 <= n <= 0x588 || 0x5D0 <= n <= 0x5EA || 0x5EF <= n <= 0x5F2
                else
                  0x620 <= n <= 0x64A || 0x660 <= n <= 0x669 || 0x66E <= n <= 0x66F || 0x671 <= n <= 0x6D3 || n == 0x6D5 || 0x6E5 <= n <= 0x6E6
              else
                if n < 0x7C0 then
                  0x6EE <= n <= 0x6FC || n == 0x6FF || n == 0x710 || 0x712 <= n <= 0x72F || 0x74D <= n <= 0x7A5 || n == 0x7B1
                else
                  0x7C0 <= n <= 0x7EA || 0x7F4 <= n <= 0x7F5 || n == 0x7FA || 0x800 <= n <= 0x815 || n == 0x81A || n == 0x824
          else
            if n < 0x9F4 then
              if n < 0x971 then
                if n < 0x8A0 then
                  n == 0x828 || 0x840 <= n <= 0x858 || 0x860 <= n <= 0x86A || 0x870 <= n <= 0x887 || 0x889 <= n <= 0x88E
                else
                  0x8A0 <= n <= 0x8C9 || 0x904 <= n <= 0x939 || n == 0x93D || n == 0x950 || 0x958 <= n <= 0x961 || 0x966 <= n <= 0x96F
              else
                if n < 0x9B6 then
                  0x971 <= n <= 0x980 || 0x985 <= n <= 0x98C || 0x98F <= n <= 0x990 || 0x993 <= n <= 0x9A8 || 0x9AA <= n <= 0x9B0 || n == 0x9B2
                else
                  0x9B6 <= n <= 0x9B9 || n == 0x9BD || n == 0x9CE || 0x9DC <= n <= 0x9DD || 0x9DF <= n <= 0x9E1 || 0x9E6 <= n <= 0x9F1
            else
              if n < 0xA72 then
                if n < 0xA32 then
                  0x9F4 <= n <= 0x9F9 || n == 0x9FC || 0xA05 <= n <= 0xA0A || 0xA0F <= n <= 0xA10 || 0xA13 <= n <= 0xA28 || 0xA2A <= n <= 0xA30
                else
                  0xA32 <= n <= 0xA33 || 0xA35 <= n <= 0xA36 || 0xA38 <= n <= 0xA39 || 0xA59 <= n <= 0xA5C || n == 0xA5E || 0xA66 <= n <= 0xA6F
              else
                if n < 0xAB5 then
                  0xA72 <= n <= 0xA74 || 0xA85 <= n <= 0xA8D || 0xA8F <= n <= 0xA91 || 0xA93 <= n <= 0xAA8 || 0xAAA <= n <= 0xAB0 || 0xAB2 <= n <= 0xAB3
                else
                  0xAB5 <= n <= 0xAB9 || n == 0xABD || n == 0xAD0 || 0xAE0 <= n <= 0xAE1 || 0xAE6 <= n <= 0xAEF || n == 0xAF9
        else
          if n < 0xD12 then
            if n < 0xC05 then
              if n < 0xB83 then
                if n < 0xB35 then
                  0xB05 <= n <= 0xB0C || 0xB0F <= n <= 0xB10 || 0xB13 <= n <= 0xB28 || 0xB2A <= n <= 0xB30 || 0xB32 <= n <= 0xB33
                else
                  0xB35 <= n <= 0xB39 || n == 0xB3D || 0xB5C <= n <= 0xB5D || 0xB5F <= n <= 0xB61 || 0xB66 <= n <= 0xB6F || 0xB71 <= n <= 0xB77
              else
                if n < 0xB9E then
                  n == 0xB83 || 0xB85 <= n <= 0xB8A || 0xB8E <= n <= 0xB90 || 0xB92 <= n <= 0xB95 || 0xB99 <= n <= 0xB9A || n == 0xB9C
                else
                  0xB9E <= n <= 0xB9F || 0xBA3 <= n <= 0xBA4 || 0xBA8 <= n <= 0xBAA || 0xBAE <= n <= 0xBB9 || n == 0xBD0 || 0xBE6 <= n <= 0xBF2
            else
              if n < 0xC85 then
                if n < 0xC58 then
                  0xC05 <= n <= 0xC0C || 0xC0E <= n <= 0xC10 || 0xC12 <= n <= 0xC28 || 0xC2A <= n <= 0xC39 || n == 0xC3D
                else
                  0xC58 <= n <= 0xC5A || n == 0xC5D || 0xC60 <= n <= 0xC61 || 0xC66 <= n <= 0xC6F || 0xC78 <= n <= 0xC7E || n == 0xC80
              else
                if n < 0xCDD then
                  0xC85 <= n <= 0xC8C || 0xC8E <= n <= 0xC90 || 0xC92 <= n <= 0xCA8 || 0xCAA <= n <= 0xCB3 || 0xCB5 <= n <= 0xCB9 || n == 0xCBD
                else
                  0xCDD <= n <= 0xCDE || 0xCE0 <= n <= 0xCE1 || 0xCE6 <= n <= 0xCEF || 0xCF1 <= n <= 0xCF2 || 0xD04 <= n <= 0xD0C || 0xD0E <= n <= 0xD10
          else
            if n < 0xEB2 then
              if n < 0xDC0 then
                if n < 0xD66 then
                  0xD12 <= n <= 0xD3A || n == 0xD3D || n == 0xD4E || 0xD54 <= n <= 0xD56 || 0xD58 <= n <= 0xD61
                else
                  0xD66 <= n <= 0xD78 || 0xD7A <= n <= 0xD7F || 0xD85 <= n <= 0xD96 || 0xD9A <= n <= 0xDB1 || 0xDB3 <= n <= 0xDBB || n == 0xDBD
              else
                if n < 0xE81 then
                  0xDC0 <= n <= 0xDC6 || 0xDE6 <= n <= 0xDEF || 0xE01 <= n <= 0xE30 || 0xE32 <= n <= 0xE33 || 0xE40 <= n <= 0xE46 || 0xE50 <= n <= 0xE59
                else
                  0xE81 <= n <= 0xE82 || n == 0xE84 || 0xE86 <= n <= 0xE8A || 0xE8C <= n <= 0xEA3 || n == 0xEA5 || 0xEA7 <= n <= 0xEB0
            else
              if n < 0x103F then
                if n < 0xF00 then
                  0xEB2 <= n <= 0xEB3 || n == 0xEBD || 0xEC0 <= n <= 0xEC4 || n == 0xEC6 || 0xED0 <= n <= 0xED9 || 0xEDC <= n <= 0xEDF
                else
                  n == 0xF00 || 0xF20 <= n <= 0xF33 || 0xF40 <= n <= 0xF47 || 0xF49 <= n <= 0xF6C || 0xF88 <= n <= 0xF8C || 0x1000 <= n <= 0x102A
              else
                if n < 0x1075 then
                  0x103F <= n <= 0x1049 || 0x1050 <= n <= 0x1055 || 0x105A <= n <= 0x105D || n == 0x1061 || 0x1065 <= n <= 0x1066 || 0x106E <= n <= 0x1070
                else
                  0x1075 <= n <= 0x1081 || n == 0x108E || 0x1090 <= n <= 0x1099 || 0x10A0 <= n <= 0x10C5 || n == 0x10C7 || n == 0x10CD
      else
        if n < 0x2107 then
          if n < 0x19B0 then
            if n < 0x1681 then
              if n < 0x12C0 then
                if n < 0x125A then
                  0x10D0 <= n <= 0x10FA || 0x10FC <= n <= 0x1248 || 0x124A <= n <= 0x124D || 0x1250 <= n <= 0x1256 || n == 0x1258
                else
                  0x125A <= n <= 0x125D || 0x1260 <= n <= 0x1288 || 0x128A <= n <= 0x128D || 0x1290 <= n <= 0x12B0 || 0x12B2 <= n <= 0x12B5 || 0x12B8 <= n <= 0x12BE
              else
                if n < 0x1369 then
                  n == 0x12C0 || 0x12C2 <= n <= 0x12C5 || 0x12C8 <= n <= 0x12D6 || 0x12D8 <= n <= 0x1310 || 0x1312 <= n <= 0x1315 || 0x1318 <= n <= 0x135A
                else
                  0x1369 <= n <= 0x137C || 0x1380 <= n <= 0x138F || 0x13A0 <= n <= 0x13F5 || 0x13F8 <= n <= 0x13FD || 0x1401 <= n <= 0x166C || 0x166F <= n <= 0x167F
            else
              if n < 0x17E0 then
                if n < 0x1740 then
                  0x1681 <= n <= 0x169A || 0x16A0 <= n <= 0x16EA || 0x16EE <= n <= 0x16F8 || 0x1700 <= n <= 0x1711 || 0x171F <= n <= 0x1731
                else
                  0x1740 <= n <= 0x1751 || 0x1760 <= n <= 0x176C || 0x176E <= n <= 0x1770 || 0x1780 <= n <= 0x17B3 || n == 0x17D7 || n == 0x17DC
              else
                if n < 0x18AA then
                  0x17E0 <= n <= 0x17E9 || 0x17F0 <= n <= 0x17F9 || 0x1810 <= n <= 0x1819 || 0x1820 <= n <= 0x1878 || 0x1880 <= n <= 0x1884 || 0x1887 <= n <= 0x18A8
                else
                  n == 0x18AA || 0x18B0 <= n <= 0x18F5 || 0x1900 <= n <= 0x191E || 0x1946 <= n <= 0x196D || 0x1970 <= n <= 0x1974 || 0x1980 <= n <= 0x19AB
          else
            if n < 0x1E00 then
              if n < 0x1BAE then
                if n < 0x1A90 then
                  0x19B0 <= n <= 0x19C9 || 0x19D0 <= n <= 0x19DA || 0x1A00 <= n <= 0x1A16 || 0x1A20 <= n <= 0x1A54 || 0x1A80 <= n <= 0x1A89
                else
                  0x1A90 <= n <= 0x1A99 || n == 0x1AA7 || 0x1B05 <= n <= 0x1B33 || 0x1B45 <= n <= 0x1B4C || 0x1B50 <= n <= 0x1B59 || 0x1B83 <= n <= 0x1BA0
              else
                if n < 0x1CBD then
                  0x1BAE <= n <= 0x1BE5 || 0x1C00 <= n <= 0x1C23 || 0x1C40 <= n <= 0x1C49 || 0x1C4D <= n <= 0x1C7D || 0x1C80 <= n <= 0x1C88 || 0x1C90 <= n <= 0x1CBA
                else
                  0x1CBD <= n <= 0x1CBF || 0x1CE9 <= n <= 0x1CEC || 0x1CEE <= n <= 0x1CF3 || 0x1CF5 <= n <= 0x1CF6 || n == 0x1CFA || 0x1D00 <= n <= 0x1DBF
            else
              if n < 0x1FC2 then
                if n < 0x1F5B then
                  0x1E00 <= n <= 0x1F15 || 0x1F18 <= n <= 0x1F1D || 0x1F20 <= n <= 0x1F45 || 0x1F48 <= n <= 0x1F4D || 0x1F50 <= n <= 0x1F57 || n == 0x1F59
                else
                  n == 0x1F5B || n == 0x1F5D || 0x1F5F <= n <= 0x1F7D || 0x1F80 <= n <= 0x1FB4 || 0x1FB6 <= n <= 0x1FBC || n == 0x1FBE
              else
                if n < 0x1FF6 then
                  0x1FC2 <= n <= 0x1FC4 || 0x1FC6 <= n <= 0x1FCC || 0x1FD0 <= n <= 0x1FD3 || 0x1FD6 <= n <= 0x1FDB || 0x1FE0 <= n <= 0x1FEC || 0x1FF2 <= n <= 0x1FF4
                else
                  0x1FF6 <= n <= 0x1FFC || 0x2070 <= n <= 0x2071 || 0x2074 <= n <= 0x2079 || 0x207F <= n <= 0x2089 || 0x2090 <= n <= 0x209C || n == 0x2102
        else
          if n < 0x31A0 then
            if n < 0x2D30 then
              if n < 0x214E then
                if n < 0x2126 then
                  n == 0x2107 || 0x210A <= n <= 0x2113 || n == 0x2115 || 0x2119 <= n <= 0x211D || n == 0x2124
                else
                  n == 0x2126 || n == 0x2128 || 0x212A <= n <= 0x212D || 0x212F <= n <= 0x2139 || 0x213C <= n <= 0x213F || 0x2145 <= n <= 0x2149
              else
                if n < 0x2CEB then
                  n == 0x214E || 0x2150 <= n <= 0x2189 || 0x2460 <= n <= 0x249B || 0x24EA <= n <= 0x24FF || 0x2776 <= n <= 0x2793 || 0x2C00 <= n <= 0x2CE4
                else
                  0x2CEB <= n <= 0x2CEE || 0x2CF2 <= n <= 0x2CF3 || n == 0x2CFD || 0x2D00 <= n <= 0x2D25 || n == 0x2D27 || n == 0x2D2D
            else
              if n < 0x2E2F then
                if n < 0x2DB0 then
                  0x2D30 <= n <= 0x2D67 || n == 0x2D6F || 0x2D80 <= n <= 0x2D96 || 0x2DA0 <= n <= 0x2DA6 || 0x2DA8 <= n <= 0x2DAE
                else
                  0x2DB0 <= n <= 0x2DB6 || 0x2DB8 <= n <= 0x2DBE || 0x2DC0 <= n <= 0x2DC6 || 0x2DC8 <= n <= 0x2DCE || 0x2DD0 <= n <= 0x2DD6 || 0x2DD8 <= n <= 0x2DDE
              else
                if n < 0x309D then
                  n == 0x2E2F || 0x3005 <= n <= 0x3007 || 0x3021 <= n <= 0x3029 || 0x3031 <= n <= 0x3035 || 0x3038 <= n <= 0x303C || 0x3041 <= n <= 0x3096
                else
                  0x309D <= n <= 0x309F || 0x30A1 <= n <= 0x30FA || 0x30FC <= n <= 0x30FF || 0x3105 <= n <= 0x312F || 0x3131 <= n <= 0x318E || 0x3192 <= n <= 0x3195
          else
            if n < 0xA807 then
              if n < 0xA610 then
                if n < 0x3280 then
                  0x31A0 <= n <= 0x31BF || 0x31F0 <= n <= 0x31FF || 0x3220 <= n <= 0x3229 || 0x3248 <= n <= 0x324F || 0x3251 <= n <= 0x325F
                else
                  0x3280 <= n <= 0x3289 || 0x32B1 <= n <= 0x32BF || 0x3400 <= n <= 0x4DBF || 0x4E00 <= n <= 0xA48C || 0xA4D0 <= n <= 0xA4FD || 0xA500 <= n <= 0xA60C
              else
                if n < 0xA78B then
                  0xA610 <= n <= 0xA62B || 0xA640 <= n <= 0xA66E || 0xA67F <= n <= 0xA69D || 0xA6A0 <= n <= 0xA6EF || 0xA717 <= n <= 0xA71F || 0xA722 <= n <= 0xA788
                else
                  0xA78B <= n <= 0xA7CA || 0xA7D0 <= n <= 0xA7D1 || n == 0xA7D3 || 0xA7D5 <= n <= 0xA7D9 || 0xA7F2 <= n <= 0xA801 || 0xA803 <= n <= 0xA805
            else
              if n < 0xA984 then
                if n < 0xA8F2 then
                  0xA807 <= n <= 0xA80A || 0xA80C <= n <= 0xA822 || 0xA830 <= n <= 0xA835 || 0xA840 <= n <= 0xA873 || 0xA882 <= n <= 0xA8B3 || 0xA8D0 <= n <= 0xA8D9
                else
                  0xA8F2 <= n <= 0xA8F7 || n == 0xA8FB || 0xA8FD <= n <= 0xA8FE || 0xA900 <= n <= 0xA925 || 0xA930 <= n <= 0xA946 || 0xA960 <= n <= 0xA97C
              else
                if n < 0xAA44 then
                  0xA984 <= n <= 0xA9B2 || 0xA9CF <= n <= 0xA9D9 || 0xA9E0 <= n <= 0xA9E4 || 0xA9E6 <= n <= 0xA9FE || 0xAA00 <= n <= 0xAA28 || 0xAA40 <= n <= 0xAA42
                else
                  0xAA44 <= n <= 0xAA4B || 0xAA50 <= n <= 0xAA59 || 0xAA60 <= n <= 0xAA76 || n == 0xAA7A || 0xAA7E <= n <= 0xAAAF || n == 0xAAB1
    else
      if n < 0x118A0 then
        if n < 0x108A7 then
          if n < 0x1000D then
            if n < 0xFB1D then
              if n < 0xAB28 then
                if n < 0xAAE0 then
                  0xAAB5 <= n <= 0xAAB6 || 0xAAB9 <= n <= 0xAABD || n == 0xAAC0 || n == 0xAAC2 || 0xAADB <= n <= 0xAADD
                else
                  0xAAE0 <= n <= 0xAAEA || 0xAAF2 <= n <= 0xAAF4 || 0xAB01 <= n <= 0xAB06 || 0xAB09 <= n <= 0xAB0E || 0xAB11 <= n <= 0xAB16 || 0xAB20 <= n <= 0xAB26
              else
                if n < 0xD7B0 then
                  0xAB28 <= n <= 0xAB2E || 0xAB30 <= n <= 0xAB5A || 0xAB5C <= n <= 0xAB69 || 0xAB70 <= n <= 0xABE2 || 0xABF0 <= n <= 0xABF9 || 0xAC00 <= n <= 0xD7A3
                else
                  0xD7B0 <= n <= 0xD7C6 || 0xD7CB <= n <= 0xD7FB || 0xF900 <= n <= 0xFA6D || 0xFA70 <= n <= 0xFAD9 || 0xFB00 <= n <= 0xFB06 || 0xFB13 <= n <= 0xFB17
            else
              if n < 0xFDF0 then
                if n < 0xFB40 then
                  n == 0xFB1D || 0xFB1F <= n <= 0xFB28 || 0xFB2A <= n <= 0xFB36 || 0xFB38 <= n <= 0xFB3C || n == 0xFB3E
                else
                  0xFB40 <= n <= 0xFB41 || 0xFB43 <= n <= 0xFB44 || 0xFB46 <= n <= 0xFBB1 || 0xFBD3 <= n <= 0xFD3D || 0xFD50 <= n <= 0xFD8F || 0xFD92 <= n <= 0xFDC7
              else
                if n < 0xFF66 then
                  0xFDF0 <= n <= 0xFDFB || 0xFE70 <= n <= 0xFE74 || 0xFE76 <= n <= 0xFEFC || 0xFF10 <= n <= 0xFF19 || 0xFF21 <= n <= 0xFF3A || 0xFF41 <= n <= 0xFF5A
                else
                  0xFF66 <= n <= 0xFFBE || 0xFFC2 <= n <= 0xFFC7 || 0xFFCA <= n <= 0xFFCF || 0xFFD2 <= n <= 0xFFD7 || 0xFFDA <= n <= 0xFFDC || 0x10000 <= n <= 0x1000B
          else
            if n < 0x10500 then
              if n < 0x102E1 then
                if n < 0x10080 then
                  0x1000D <= n <= 0x10026 || 0x10028 <= n <= 0x1003A || 0x1003C <= n <= 0x1003D || 0x1003F <= n <= 0x1004D || 0x10050 <= n <= 0x1005D
                else
                  0x10080 <= n <= 0x100FA || 0x10107 <= n <= 0x10133 || 0x10140 <= n <= 0x10178 || 0x1018A <= n <= 0x1018B || 0x10280 <= n <= 0x1029C || 0x102A0 <= n <= 0x102D0
              else
                if n < 0x103C8 then
                  0x102E1 <= n <= 0x102FB || 0x10300 <= n <= 0x10323 || 0x1032D <= n <= 0x1034A || 0x10350 <= n <= 0x10375 || 0x10380 <= n <= 0x1039D || 0x103A0 <= n <= 0x103C3
                else
                  0x103C8 <= n <= 0x103CF || 0x103D1 <= n <= 0x103D5 || 0x10400 <= n <= 0x1049D || 0x104A0 <= n <= 0x104A9 || 0x104B0 <= n <= 0x104D3 || 0x104D8 <= n <= 0x104FB
            else
              if n < 0x10760 then
                if n < 0x10597 then
                  0x10500 <= n <= 0x10527 || 0x10530 <= n <= 0x10563 || 0x10570 <= n <= 0x1057A || 0x1057C <= n <= 0x1058A || 0x1058C <= n <= 0x10592 || 0x10594 <= n <= 0x10595
                else
                  0x10597 <= n <= 0x105A1 || 0x105A3 <= n <= 0x105B1 || 0x105B3 <= n <= 0x105B9 || 0x105BB <= n <= 0x105BC || 0x10600 <= n <= 0x10736 || 0x10740 <= n <= 0x10755
              else
                if n < 0x1080A then
                  0x10760 <= n <= 0x10767 || 0x10780 <= n <= 0x10785 || 0x10787 <= n <= 0x107B0 || 0x107B2 <= n <= 0x107BA || 0x10800 <= n <= 0x10805 || n == 0x10808
                else
                  0x1080A <= n <= 0x10835 || 0x10837 <= n <= 0x10838 || n == 0x1083C || 0x1083F <= n <= 0x10855 || 0x10858 <= n <= 0x10876 || 0x10879 <= n <= 0x1089E
        else
          if n < 0x11147 then
            if n < 0x10C80 then
              if n < 0x10A40 then
                if n < 0x10980 then
                  0x108A7 <= n <= 0x108AF || 0x108E0 <= n <= 0x108F2 || 0x108F4 <= n <= 0x108F5 || 0x108FB <= n <= 0x1091B || 0x10920 <= n <= 0x10939
                else
                  0x10980 <= n <= 0x109B7 || 0x109BC <= n <= 0x109CF || 0x109D2 <= n <= 0x10A00 || 0x10A10 <= n <= 0x10A13 || 0x10A15 <= n <= 0x10A17 || 0x10A19 <= n <= 0x10A35
              else
                if n < 0x10B00 then
                  0x10A40 <= n <= 0x10A48 || 0x10A60 <= n <= 0x10A7E || 0x10A80 <= n <= 0x10A9F || 0x10AC0 <= n <= 0x10AC7 || 0x10AC9 <= n <= 0x10AE4 || 0x10AEB <= n <= 0x10AEF
                else
                  0x10B00 <= n <= 0x10B35 || 0x10B40 <= n <= 0x10B55 || 0x10B58 <= n <= 0x10B72 || 0x10B78 <= n <= 0x10B91 || 0x10BA9 <= n <= 0x10BAF || 0x10C00 <= n <= 0x10C48
            else
              if n < 0x10FB0 then
                if n < 0x10E80 then
                  0x10C80 <= n <= 0x10CB2 || 0x10CC0 <= n <= 0x10CF2 || 0x10CFA <= n <= 0x10D23 || 0x10D30 <= n <= 0x10D39 || 0x10E60 <= n <= 0x10E7E
                else
                  0x10E80 <= n <= 0x10EA9 || 0x10EB0 <= n <= 0x10EB1 || 0x10F00 <= n <= 0x10F27 || 0x10F30 <= n <= 0x10F45 || 0x10F51 <= n <= 0x10F54 || 0x10F70 <= n <= 0x10F81
              else
                if n < 0x11083 then
                  0x10FB0 <= n <= 0x10FCB || 0x10FE0 <= n <= 0x10FF6 || 0x11003 <= n <= 0x11037 || 0x11052 <= n <= 0x1106F || 0x11071 <= n <= 0x11072 || n == 0x11075
                else
                  0x11083 <= n <= 0x110AF || 0x110D0 <= n <= 0x110E8 || 0x110F0 <= n <= 0x110F9 || 0x11103 <= n <= 0x11126 || 0x11136 <= n <= 0x1113F || n == 0x11144
          else
            if n < 0x11335 then
              if n < 0x11280 then
                if n < 0x111D0 then
                  n == 0x11147 || 0x11150 <= n <= 0x11172 || n == 0x11176 || 0x11183 <= n <= 0x111B2 || 0x111C1 <= n <= 0x111C4
                else
                  0x111D0 <= n <= 0x111DA || n == 0x111DC || 0x111E1 <= n <= 0x111F4 || 0x11200 <= n <= 0x11211 || 0x11213 <= n <= 0x1122B || 0x1123F <= n <= 0x11240
              else
                if n < 0x112F0 then
                  0x11280 <= n <= 0x11286 || n == 0x11288 || 0x1128A <= n <= 0x1128D || 0x1128F <= n <= 0x1129D || 0x1129F <= n <= 0x112A8 || 0x112B0 <= n <= 0x112DE
                else
                  0x112F0 <= n <= 0x112F9 || 0x11305 <= n <= 0x1130C || 0x1130F <= n <= 0x11310 || 0x11313 <= n <= 0x11328 || 0x1132A <= n <= 0x11330 || 0x11332 <= n <= 0x11333
            else
              if n < 0x11580 then
                if n < 0x11450 then
                  0x11335 <= n <= 0x11339 || n == 0x1133D || n == 0x11350 || 0x1135D <= n <= 0x11361 || 0x11400 <= n <= 0x11434 || 0x11447 <= n <= 0x1144A
                else
                  0x11450 <= n <= 0x11459 || 0x1145F <= n <= 0x11461 || 0x11480 <= n <= 0x114AF || 0x114C4 <= n <= 0x114C5 || n == 0x114C7 || 0x114D0 <= n <= 0x114D9
              else
                if n < 0x116B8 then
                  0x11580 <= n <= 0x115AE || 0x115D8 <= n <= 0x115DB || 0x11600 <= n <= 0x1162F || n == 0x11644 || 0x11650 <= n <= 0x11659 || 0x11680 <= n <= 0x116AA
                else
                  n == 0x116B8 || 0x116C0 <= n <= 0x116C9 || 0x11700 <= n <= 0x1171A || 0x11730 <= n <= 0x1173B || 0x11740 <= n <= 0x11746 || 0x11800 <= n <= 0x1182B
      else
        if n < 0x1D4BB then
          if n < 0x13000 then
            if n < 0x11C50 then
              if n < 0x119E1 then
                if n < 0x11918 then
                  0x118A0 <= n <= 0x118F2 || 0x118FF <= n <= 0x11906 || n == 0x11909 || 0x1190C <= n <= 0x11913 || 0x11915 <= n <= 0x11916
                else
                  0x11918 <= n <= 0x1192F || n == 0x1193F || n == 0x11941 || 0x11950 <= n <= 0x11959 || 0x119A0 <= n <= 0x119A7 || 0x119AA <= n <= 0x119D0
              else
                if n < 0x11A5C then
                  n == 0x119E1 || n == 0x119E3 || n == 0x11A00 || 0x11A0B <= n <= 0x11A32 || n == 0x11A3A || n == 0x11A50
                else
                  0x11A5C <= n <= 0x11A89 || n == 0x11A9D || 0x11AB0 <= n <= 0x11AF8 || 0x11C00 <= n <= 0x11C08 || 0x11C0A <= n <= 0x11C2E || n == 0x11C40
            else
              if n < 0x11DA0 then
                if n < 0x11D46 then
                  0x11C50 <= n <= 0x11C6C || 0x11C72 <= n <= 0x11C8F || 0x11D00 <= n <= 0x11D06 || 0x11D08 <= n <= 0x11D09 || 0x11D0B <= n <= 0x11D30
                else
                  n == 0x11D46 || 0x11D50 <= n <= 0x11D59 || 0x11D60 <= n <= 0x11D65 || 0x11D67 <= n <= 0x11D68 || 0x11D6A <= n <= 0x11D89 || n == 0x11D98
              else
                if n < 0x11FB0 then
                  0x11DA0 <= n <= 0x11DA9 || 0x11EE0 <= n <= 0x11EF2 || n == 0x11F02 || 0x11F04 <= n <= 0x11F10 || 0x11F12 <= n <= 0x11F33 || 0x11F50 <= n <= 0x11F59
                else
                  n == 0x11FB0 || 0x11FC0 <= n <= 0x11FD4 || 0x12000 <= n <= 0x12399 || 0x12400 <= n <= 0x1246E || 0x12480 <= n <= 0x12543 || 0x12F90 <= n <= 0x12FF0
          else
            if n < 0x18D00 then
              if n < 0x16B50 then
                if n < 0x16A60 then
                  0x13000 <= n <= 0x1342F || 0x13441 <= n <= 0x13446 || 0x14400 <= n <= 0x14646 || 0x16800 <= n <= 0x16A38 || 0x16A40 <= n <= 0x16A5E
                else
                  0x16A60 <= n <= 0x16A69 || 0x16A70 <= n <= 0x16ABE || 0x16AC0 <= n <= 0x16AC9 || 0x16AD0 <= n <= 0x16AED || 0x16B00 <= n <= 0x16B2F || 0x16B40 <= n <= 0x16B43
              else
                if n < 0x16F50 then
                  0x16B50 <= n <= 0x16B59 || 0x16B5B <= n <= 0x16B61 || 0x16B63 <= n <= 0x16B77 || 0x16B7D <= n <= 0x16B8F || 0x16E40 <= n <= 0x16E96 || 0x16F00 <= n <= 0x16F4A
                else
                  n == 0x16F50 || 0x16F93 <= n <= 0x16F9F || 0x16FE0 <= n <= 0x16FE1 || n == 0x16FE3 || 0x17000 <= n <= 0x187F7 || 0x18800 <= n <= 0x18CD5
            else
              if n < 0x1BC80 then
                if n < 0x1B150 then
                  0x18D00 <= n <= 0x18D08 || 0x1AFF0 <= n <= 0x1AFF3 || 0x1AFF5 <= n <= 0x1AFFB || 0x1AFFD <= n <= 0x1AFFE || 0x1B000 <= n <= 0x1B122 || n == 0x1B132
                else
                  0x1B150 <= n <= 0x1B152 || n == 0x1B155 || 0x1B164 <= n <= 0x1B167 || 0x1B170 <= n <= 0x1B2FB || 0x1BC00 <= n <= 0x1BC6A || 0x1BC70 <= n <= 0x1BC7C
              else
                if n < 0x1D456 then
                  0x1BC80 <= n <= 0x1BC88 || 0x1BC90 <= n <= 0x1BC99 || 0x1D2C0 <= n <= 0x1D2D3 || 0x1D2E0 <= n <= 0x1D2F3 || 0x1D360 <= n <= 0x1D378 || 0x1D400 <= n <= 0x1D454
                else
                  0x1D456 <= n <= 0x1D49C || 0x1D49E <= n <= 0x1D49F || n == 0x1D4A2 || 0x1D4A5 <= n <= 0x1D4A6 || 0x1D4A9 <= n <= 0x1D4AC || 0x1D4AE <= n <= 0x1D4B9
        else
          if n < 0x1ECAD then
            if n < 0x1D7CE then
              if n < 0x1D552 then
                if n < 0x1D516 then
                  n == 0x1D4BB || 0x1D4BD <= n <= 0x1D4C3 || 0x1D4C5 <= n <= 0x1D505 || 0x1D507 <= n <= 0x1D50A || 0x1D50D <= n <= 0x1D514
                else
                  0x1D516 <= n <= 0x1D51C || 0x1D51E <= n <= 0x1D539 || 0x1D53B <= n <= 0x1D53E || 0x1D540 <= n <= 0x1D544 || n == 0x1D546 || 0x1D54A <= n <= 0x1D550
              else
                if n < 0x1D736 then
                  0x1D552 <= n <= 0x1D6A5 || 0x1D6A8 <= n <= 0x1D6C0 || 0x1D6C2 <= n <= 0x1D6DA || 0x1D6DC <= n <= 0x1D6FA || 0x1D6FC <= n <= 0x1D714 || 0x1D716 <= n <= 0x1D734
                else
                  0x1D736 <= n <= 0x1D74E || 0x1D750 <= n <= 0x1D76E || 0x1D770 <= n <= 0x1D788 || 0x1D78A <= n <= 0x1D7A8 || 0x1D7AA <= n <= 0x1D7C2 || 0x1D7C4 <= n <= 0x1D7CB
            else
              if n < 0x1E4D0 then
                if n < 0x1E137 then
                  0x1D7CE <= n <= 0x1D7FF || 0x1DF00 <= n <= 0x1DF1E || 0x1DF25 <= n <= 0x1DF2A || 0x1E030 <= n <= 0x1E06D || 0x1E100 <= n <= 0x1E12C
                else
                  0x1E137 <= n <= 0x1E13D || 0x1E140 <= n <= 0x1E149 || n == 0x1E14E || 0x1E290 <= n <= 0x1E2AD || 0x1E2C0 <= n <= 0x1E2EB || 0x1E2F0 <= n <= 0x1E2F9
              else
                if n < 0x1E800 then
                  0x1E4D0 <= n <= 0x1E4EB || 0x1E4F0 <= n <= 0x1E4F9 || 0x1E7E0 <= n <= 0x1E7E6 || 0x1E7E8 <= n <= 0x1E7EB || 0x1E7ED <= n <= 0x1E7EE || 0x1E7F0 <= n <= 0x1E7FE
                else
                  0x1E800 <= n <= 0x1E8C4 || 0x1E8C7 <= n <= 0x1E8CF || 0x1E900 <= n <= 0x1E943 || n == 0x1E94B || 0x1E950 <= n <= 0x1E959 || 0x1EC71 <= n <= 0x1ECAB
          else
            if n < 0x1EE5D then
              if n < 0x1EE39 then
                if n < 0x1EE05 then
                  0x1ECAD <= n <= 0x1ECAF || 0x1ECB1 <= n <= 0x1ECB4 || 0x1ED01 <= n <= 0x1ED2D || 0x1ED2F <= n <= 0x1ED3D || 0x1EE00 <= n <= 0x1EE03
                else
                  0x1EE05 <= n <= 0x1EE1F || 0x1EE21 <= n <= 0x1EE22 || n == 0x1EE24 || n == 0x1EE27 || 0x1EE29 <= n <= 0x1EE32 || 0x1EE34 <= n <= 0x1EE37
              else
                if n < 0x1EE4D then
                  n == 0x1EE39 || n == 0x1EE3B || n == 0x1EE42 || n == 0x1EE47 || n == 0x1EE49 || n == 0x1EE4B
                else
                  0x1EE4D <= n <= 0x1EE4F || 0x1EE51 <= n <= 0x1EE52 || n == 0x1EE54 || n == 0x1EE57 || n == 0x1EE59 || n == 0x1EE5B
            else
              if n < 0x1EEA5 then
                if n < 0x1EE74 then
                  n == 0x1EE5D || n == 0x1EE5F || 0x1EE61 <= n <= 0x1EE62 || n == 0x1EE64 || 0x1EE67 <= n <= 0x1EE6A || 0x1EE6C <= n <= 0x1EE72
                else
                  0x1EE74 <= n <= 0x1EE77 || 0x1EE79 <= n <= 0x1EE7C || n == 0x1EE7E || 0x1EE80 <= n <= 0x1EE89 || 0x1EE8B <= n <= 0x1EE9B || 0x1EEA1 <= n <= 0x1EEA3
              else
                if n < 0x2B740 then
                  0x1EEA5 <= n <= 0x1EEA9 || 0x1EEAB <= n <= 0x1EEBB || 0x1F100 <= n <= 0x1F10C || 0x1FBF0 <= n <= 0x1FBF9 || 0x20000 <= n <= 0x2A6DF || 0x2A700 <= n <= 0x2B739
                else
                  0x2B740 <= n <= 0x2B81D || 0x2B820 <= n <= 0x2CEA1 || 0x2CEB0 <= n <= 0x2EBE0 || 0x2F800 <= n <= 0x2FA1D || 0x30000 <= n <= 0x3134A || 0x31350 <= n <= 0x323AF
  }

  /** `c.isalnum()` for a character above U+007F. */
  predicate IsNonAsciiAlnum(c: char) {
    IsAlnumCode(c as int)
  }
}
